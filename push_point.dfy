/** The `bbedit_push_point` program: record the front editor window's cursor
    location on the stack of its process. The front process id, the
    editor's document variables and the clock are parameters; the store is
    given as already parsed from the points file. */
module PushPoint {
  import opened JumpPoints

  /** `main`: load the store without expired points, push the new point on
      the stack of `pid` (creating the stack when the process has none) and
      write the store. A missing document variable stops the run before the
      store is touched. */
  method Run(stored: PointsMap, pid: int, docPath: Option<string>, line: Option<int>, column: Option<int>, now: int)
    returns (outcome: PushOutcome)
    ensures outcome == PushRun(stored, pid, docPath, line, column, now)
  {
    var pointsData := PointsFrom(stored, now - MaxAge);
    if docPath.None? || line.None? || column.None? {
      return NotLaunchedFromEditor;
    }
    var newPoint := JumpPoint(docPath.value, line.value, column.value, now);
    ghost var pushed := Pushed(pointsData, pid, newPoint);
    if pid in pointsData {
      pointsData := pointsData[pid := pointsData[pid] + [newPoint]];
    } else {
      assert [] + [newPoint] == [newPoint];
      pointsData := pointsData[pid := [newPoint]];
    }
    assert pointsData == pushed;
    var saved := SavePoints(pointsData);
    outcome := Wrote(saved);
  }
}
