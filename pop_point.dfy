/** The `bbedit_pop_point` program: send the front editor window back to the
    last point its process pushed that has not expired. The front process id and the clock
    are parameters; the store is given as already parsed from the points
    file, and the editor command is returned instead of run. */
module PopPoint {
  import opened JumpPoints

  /** `main`: load the store without expired points; when the front process
      has a stack, take its last point off, write the store and return the
      command that opens the editor there; otherwise write nothing and
      return no command. */
  method Run(stored: PointsMap, pid: int, now: int) returns (outcome: PopOutcome, command: seq<string>)
    ensures outcome == PopAt(stored, pid, now)
    ensures command == if outcome.Jumped? then JumpCommand(outcome.target) else []
  {
    var pointsData := PointsFrom(stored, now - MaxAge);
    if pid in pointsData {
      var points := pointsData[pid];
      var lastPoint := points[|points| - 1];
      pointsData := pointsData[pid := points[..|points| - 1]];
      var saved := SavePoints(pointsData);
      command := JumpCommand(lastPoint);
      outcome := Jumped(saved, lastPoint);
    } else {
      outcome := NoPoints;
      command := [];
    }
  }
}
