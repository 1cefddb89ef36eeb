/** The Python jump-point script: the same store and the same push and pop
    runs as the Rust programs, written as loops over dictionaries, plus the
    verbosity flags that set the logging level. The points file is given as
    its parsed store, or `None` when the file does not exist; the front
    process id, the environment and the clock are parameters. */
module JumpPointsPy {
  import opened JumpPoints

  /** The store a points file holds; a missing file holds none. */
  function Stored(file: Option<PointsMap>): PointsMap {
    if file.Some? then file.value else map[]
  }

  /** `get_points`: a missing file loads as the empty store; otherwise each
      process keeps its unexpired points, and is kept only when some are
      left. */
  method GetPoints(file: Option<PointsMap>, oldest: int) returns (pointsMap: PointsMap)
    ensures pointsMap == Pruned(Stored(file), oldest)
  {
    if file.None? {
      assert Pruned(map[], oldest).Keys == {};
      return map[];
    }
    var pointsData := file.value;
    pointsMap := map[];
    var todo := pointsData.Keys;
    while exists pid :: pid in todo
      invariant todo <= pointsData.Keys
      invariant forall pid :: pid in pointsMap ==> pid in pointsData && pid !in todo
      invariant forall pid :: pid in pointsData && pid !in todo ==>
        (pid in pointsMap <==> Unexpired(pointsData[pid], oldest) != [])
      invariant forall pid :: pid in pointsMap ==> pointsMap[pid] == Unexpired(pointsData[pid], oldest)
      decreases |todo|
    {
      var pid :| pid in todo;
      var currentPoints := Unexpired(pointsData[pid], oldest);
      if currentPoints != [] {
        pointsMap := pointsMap[pid := currentPoints];
      }
      todo := todo - {pid};
    }
    assert todo == {};
    PrunedPointwise(pointsData, oldest, pointsMap);
  }

  /** `save_points`: the dictionary written holds the processes that have
      points left, with their lists. */
  method SavePoints(pointsMap: PointsMap) returns (pointsData: PointsMap)
    ensures pointsData == WithoutEmpty(pointsMap)
  {
    pointsData := map[];
    var todo := pointsMap.Keys;
    while exists pid :: pid in todo
      invariant todo <= pointsMap.Keys
      invariant forall pid :: pid in pointsData ==> pid in pointsMap && pid !in todo && pointsData[pid] == pointsMap[pid]
      invariant forall pid :: pid in pointsMap && pid !in todo ==> (pid in pointsData <==> pointsMap[pid] != [])
      decreases |todo|
    {
      var pid :| pid in todo;
      if pointsMap[pid] != [] {
        pointsData := pointsData[pid := pointsMap[pid]];
      }
      todo := todo - {pid};
    }
    forall pid
      ensures pid in pointsData <==> pid in WithoutEmpty(pointsMap)
      ensures pid in pointsData ==> pointsData[pid] == WithoutEmpty(pointsMap)[pid]
    {
      assert pid !in todo;
    }
    assert pointsData.Keys == WithoutEmpty(pointsMap).Keys;
  }

  // ---------------------------------------------------------------------
  // Logging level

  /** The levels of Python's `logging` module. */
  const Debug := 10
  const Info := 20
  const Warning := 30

  /** How many of `args` are the flag `-v`. */
  function VerboseCount(args: seq<string>): nat
    decreases |args|
  {
    if args == [] then 0
    else VerboseCount(args[..|args| - 1]) + (if args[|args| - 1] == "-v" then 1 else 0)
  }

  /** The level for a number of `-v` flags. */
  function LevelFor(count: nat): int {
    if count == 0 then Warning else if count == 1 then Info else Debug
  }

  /** The arguments after the program name. */
  function Flags(args: seq<string>): seq<string> {
    if args == [] then [] else args[1..]
  }

  /** `setup_logging`: count the `-v` flags after the program name and pick
      the level they ask for. */
  method SetupLogging(args: seq<string>) returns (level: int)
    ensures level == LevelFor(VerboseCount(Flags(args)))
  {
    var flags := Flags(args);
    var levelNum := 0;
    var i := 0;
    while i < |flags|
      invariant 0 <= i <= |flags|
      invariant levelNum == VerboseCount(flags[..i])
    {
      assert flags[..i + 1][..i] == flags[..i];
      if flags[i] == "-v" {
        levelNum := levelNum + 1;
      }
      i := i + 1;
    }
    assert flags[..i] == flags;
    if levelNum == 0 {
      level := Warning;
    } else if levelNum == 1 {
      level := Info;
    } else {
      level := Debug;
    }
  }

  /** The flags of two argument lists add up. */
  lemma {:induction false} VerboseCountAppend(a: seq<string>, b: seq<string>)
    ensures VerboseCount(a + b) == VerboseCount(a) + VerboseCount(b)
    decreases |b|
  {
    if b == [] {
      assert a + b == a;
    } else {
      assert (a + b)[..|a + b| - 1] == a + b[..|b| - 1];
      VerboseCountAppend(a, b[..|b| - 1]);
    }
  }

  /** No `-v` flag exactly when the count is zero. */
  lemma {:induction false} VerboseCountZero(args: seq<string>)
    ensures VerboseCount(args) == 0 <==> "-v" !in args
    decreases |args|
  {
    if args != [] {
      var init := args[..|args| - 1];
      VerboseCountZero(init);
      assert args == init + [args[|args| - 1]];
    }
  }

  /** The level is one of three; it stays at the default without a `-v`
      flag, and is at its most verbose from two flags on. */
  lemma LevelChoices(args: seq<string>)
    ensures var level := LevelFor(VerboseCount(Flags(args)));
      && level in {Debug, Info, Warning}
      && (level == Warning <==> "-v" !in Flags(args))
      && (level == Debug <==> VerboseCount(Flags(args)) >= 2)
  {
    VerboseCountZero(Flags(args));
  }

  /** More flags never make the logging less verbose. */
  lemma MoreFlagsMoreVerbose(args: seq<string>, extra: seq<string>)
    requires args != []
    ensures LevelFor(VerboseCount(Flags(args + extra))) <= LevelFor(VerboseCount(Flags(args)))
  {
    assert Flags(args + extra) == Flags(args) + extra;
    VerboseCountAppend(Flags(args), extra);
  }

  /** The program name is never counted, even when it is `-v`. */
  lemma ProgramNameIgnored(name: string, flags: seq<string>)
    ensures LevelFor(VerboseCount(Flags([name] + flags))) == LevelFor(VerboseCount(flags))
  {
    assert Flags([name] + flags) == flags;
  }

  // ---------------------------------------------------------------------
  // The push and pop commands

  /** `push`: a missing document variable stops the run; otherwise the
      store is loaded at an hour before `now`, the new point is appended to
      the stack of `pid` (created empty when missing) and the store is
      written. */
  method Push(file: Option<PointsMap>, pid: int, docPath: Option<string>, line: Option<int>, column: Option<int>, now: int)
    returns (outcome: PushOutcome)
    ensures outcome == PushRun(Stored(file), pid, docPath, line, column, now)
  {
    if docPath.None? || line.None? || column.None? {
      return NotLaunchedFromEditor;
    }
    var point := JumpPoint(docPath.value, line.value, column.value, now);
    var pointsMap := GetPoints(file, now - MaxAge);
    var points := if pid in pointsMap then pointsMap[pid] else [];
    pointsMap := pointsMap[pid := points + [point]];
    var saved := SavePoints(pointsMap);
    outcome := Wrote(saved);
  }

  /** `pop`: the store is loaded at an hour before `now`; a process without
      points ends the run; otherwise its last point is taken off, the store
      is written and the editor command for the point is returned. */
  method Pop(file: Option<PointsMap>, pid: int, now: int) returns (outcome: PopOutcome, command: seq<string>)
    ensures outcome == PopAt(Stored(file), pid, now)
    ensures command == if outcome.Jumped? then JumpCommand(outcome.target) else []
  {
    var pointsMap := GetPoints(file, now - MaxAge);
    if pid !in pointsMap {
      return NoPoints, [];
    }
    var pidPoints := pointsMap[pid];
    var point := pidPoints[|pidPoints| - 1];
    pointsMap := pointsMap[pid := pidPoints[..|pidPoints| - 1]];
    var saved := SavePoints(pointsMap);
    command := JumpCommand(point);
    outcome := Jumped(saved, point);
  }

  /** A store with no file behind it: nothing is loaded, so a pop does
      nothing and a push writes the new point alone. */
  lemma NoFile(pid: int, filename: string, line: int, column: int, now: int)
    ensures PopAt(Stored(None), pid, now) == NoPoints
    ensures PushRun(Stored(None), pid, Some(filename), Some(line), Some(column), now)
      == Wrote(map[pid := [JumpPoint(filename, line, column, now)]])
  {
    var p := JumpPoint(filename, line, column, now);
    var empty: PointsMap := map[];
    assert Pruned(empty, now - MaxAge) == map[] by {
      assert Pruned(empty, now - MaxAge).Keys == {};
    }
    assert [] + [p] == [p];
    assert Pushed(empty, pid, p) == map[pid := [p]];
    assert WithoutEmpty(map[pid := [p]]) == map[pid := [p]] by {
      assert WithoutEmpty(map[pid := [p]]).Keys == {pid};
    }
  }
}
