/** The jump-point store shared by the push and pop programs: for each editor
    process, the cursor locations it saved, oldest first. Points older than
    the cutoff are dropped when the store is loaded, and processes without
    points are dropped when it is loaded and when it is saved. */
module JumpPoints {

  /** A cursor location: the file, the 1-based line and column, and when it
      was recorded, in seconds. */
  datatype JumpPoint = JumpPoint(filename: string, line: int, column: int, added: int)

  /** The points of each editor process id. */
  type PointsMap = map<int, seq<JumpPoint>>

  /** How long a point is kept: one hour, in seconds. */
  const MaxAge := 3600

  // ---------------------------------------------------------------------
  // Pruning

  /** The points recorded at `oldest` or later, in their order. */
  function Unexpired(points: seq<JumpPoint>, oldest: int): (r: seq<JumpPoint>)
    ensures |r| <= |points|
    ensures forall p :: p in r ==> p in points && p.added >= oldest
    ensures forall p :: p in points && p.added >= oldest ==> p in r
    decreases |points|
  {
    if points == [] then []
    else
      var init, p := points[..|points| - 1], points[|points| - 1];
      assert forall q :: q in points ==> q in init || q == p;
      if p.added >= oldest then Unexpired(init, oldest) + [p] else Unexpired(init, oldest)
  }

  /** The map with its empty lists left out. */
  function WithoutEmpty(m: PointsMap): (r: PointsMap)
    ensures forall pid :: pid in r <==> pid in m && m[pid] != []
    ensures forall pid :: pid in r ==> r[pid] == m[pid]
  {
    map pid | pid in m && m[pid] != [] :: m[pid]
  }

  /** Every list without its expired points. */
  function Retained(m: PointsMap, oldest: int): (r: PointsMap)
    ensures r.Keys == m.Keys
    ensures forall pid :: pid in r ==> forall p :: p in r[pid] ==> p.added >= oldest
  {
    map pid | pid in m :: Unexpired(m[pid], oldest)
  }

  /** The map as `points_from` leaves it: every list without its expired
      points, and no process whose points have all expired. */
  function Pruned(m: PointsMap, oldest: int): (r: PointsMap)
    ensures forall pid :: pid in r ==> pid in m && r[pid] != [] && forall p :: p in r[pid] ==> p.added >= oldest
  {
    WithoutEmpty(Retained(m, oldest))
  }

  /** A process is kept exactly when one of its points is recent enough, and
      its list is then its unexpired points. */
  lemma PrunedKeys(m: PointsMap, oldest: int)
    ensures forall pid :: pid in Pruned(m, oldest) <==> pid in m && exists p :: p in m[pid] && p.added >= oldest
    ensures forall pid :: pid in Pruned(m, oldest) ==> Pruned(m, oldest)[pid] == Unexpired(m[pid], oldest)
  {
    forall pid | pid in m
      ensures Unexpired(m[pid], oldest) != [] <==> exists p :: p in m[pid] && p.added >= oldest
    {
      var u := Unexpired(m[pid], oldest);
      if u != [] {
        assert u[0] in u;
      }
    }
  }

  /** `points_from` on an already parsed map: each list keeps its unexpired
      points (`Vec::retain` through `values_mut`), then the lists left empty
      are removed (`HashMap::retain`). */
  method PointsFrom(parsed: PointsMap, oldest: int) returns (m: PointsMap)
    ensures m == Pruned(parsed, oldest)
  {
    m := parsed;
    var todo := parsed.Keys;
    while exists pid :: pid in todo
      invariant todo <= parsed.Keys && m.Keys == parsed.Keys
      invariant forall pid :: pid in todo ==> m[pid] == parsed[pid]
      invariant forall pid :: pid in m && pid !in todo ==> m[pid] == Unexpired(parsed[pid], oldest)
      decreases |todo|
    {
      var pid :| pid in todo;
      m := m[pid := Unexpired(m[pid], oldest)];
      todo := todo - {pid};
    }
    ghost var retained := Retained(parsed, oldest);
    assert m.Keys == retained.Keys;
    assert forall pid :: pid in m ==> m[pid] == retained[pid];
    assert m == retained;
    m := WithoutEmpty(m);
  }

  /** `save_points`: a copy of the map without its empty lists is what gets
      written. */
  method SavePoints(m: PointsMap) returns (saved: PointsMap)
    ensures saved == WithoutEmpty(m)
  {
    saved := m;
    saved := WithoutEmpty(saved);
  }

  // ---------------------------------------------------------------------
  // Properties of pruning

  /** Pruning keeps the order of the points: it distributes over the
      concatenation of two lists. */
  lemma {:induction false} UnexpiredAppend(a: seq<JumpPoint>, b: seq<JumpPoint>, oldest: int)
    ensures Unexpired(a + b, oldest) == Unexpired(a, oldest) + Unexpired(b, oldest)
    decreases |b|
  {
    if b == [] {
      assert a + b == a;
    } else {
      var init := b[..|b| - 1];
      assert (a + b)[..|a + b| - 1] == a + init;
      UnexpiredAppend(a, init, oldest);
    }
  }

  /** A list loses nothing exactly when none of its points has expired. */
  lemma UnexpiredKeepsAll(points: seq<JumpPoint>, oldest: int)
    ensures Unexpired(points, oldest) == points <==> forall p :: p in points ==> p.added >= oldest
  {
    if forall p :: p in points ==> p.added >= oldest {
      UnexpiredNoneExpired(points, oldest);
    }
  }

  lemma {:induction false} UnexpiredNoneExpired(points: seq<JumpPoint>, oldest: int)
    requires forall p :: p in points ==> p.added >= oldest
    ensures Unexpired(points, oldest) == points
    decreases |points|
  {
    if points != [] {
      var init, p := points[..|points| - 1], points[|points| - 1];
      InitIn(points);
      UnexpiredNoneExpired(init, oldest);
      assert Unexpired(points, oldest) == Unexpired(init, oldest) + [p];
      assert init + [p] == points;
    }
  }

  /** Every element of a list without its last element is in the list. */
  lemma InitIn<T>(s: seq<T>)
    requires s != []
    ensures forall x :: x in s[..|s| - 1] ==> x in s
  {
  }

  /** Pruning at `c1` and then at a later `c2` is pruning at `c2`. */
  lemma {:induction false} UnexpiredTwice(points: seq<JumpPoint>, c1: int, c2: int)
    requires c1 <= c2
    ensures Unexpired(Unexpired(points, c1), c2) == Unexpired(points, c2)
    decreases |points|
  {
    if points != [] {
      var init, p := points[..|points| - 1], points[|points| - 1];
      UnexpiredTwice(init, c1, c2);
      if p.added >= c1 {
        UnexpiredAppend(Unexpired(init, c1), [p], c2);
      }
    }
  }

  /** One process of a pruned map. */
  lemma PrunedAt(m: PointsMap, oldest: int, pid: int)
    ensures pid in Pruned(m, oldest) <==> pid in m && Unexpired(m[pid], oldest) != []
    ensures pid in Pruned(m, oldest) ==> Pruned(m, oldest)[pid] == Unexpired(m[pid], oldest)
  {
  }

  /** A store that keeps, of each process, exactly its unexpired points when
      there are any is the pruned store. */
  lemma PrunedPointwise(m: PointsMap, oldest: int, r: PointsMap)
    requires forall pid :: pid in r ==> pid in m && r[pid] == Unexpired(m[pid], oldest)
    requires forall pid :: pid in m ==> (pid in r <==> Unexpired(m[pid], oldest) != [])
    ensures r == Pruned(m, oldest)
  {
    var pruned := Pruned(m, oldest);
    forall pid
      ensures pid in r <==> pid in pruned
      ensures pid in r ==> r[pid] == pruned[pid]
    {
      PrunedAt(m, oldest, pid);
    }
    assert r.Keys == pruned.Keys;
  }

  /** Pruning at `c1` and then at a later `c2` is pruning at `c2`: a later
      cutoff keeps fewer processes, and of each the points that the earlier
      cutoff kept and that the later one keeps too. */
  lemma PrunedLater(m: PointsMap, c1: int, c2: int)
    requires c1 <= c2
    ensures Pruned(Pruned(m, c1), c2) == Pruned(m, c2)
    ensures Pruned(m, c2).Keys <= Pruned(m, c1).Keys
  {
    var m1, m2 := Pruned(m, c1), Pruned(m, c2);
    var m12 := Pruned(m1, c2);
    forall pid
      ensures pid in m12 <==> pid in m2
      ensures pid in m2 ==> m12[pid] == m2[pid]
    {
      PrunedAt(m, c1, pid);
      PrunedAt(m, c2, pid);
      PrunedAt(m1, c2, pid);
      if pid in m {
        UnexpiredTwice(m[pid], c1, c2);
      }
    }
    assert m12.Keys == m2.Keys;
  }

  /** Pruning twice at the same cutoff is pruning once. */
  lemma PrunedIdempotent(m: PointsMap, oldest: int)
    ensures Pruned(Pruned(m, oldest), oldest) == Pruned(m, oldest)
  {
    PrunedLater(m, oldest, oldest);
  }

  /** A list whose points have all expired loses them all. */
  lemma {:induction false} UnexpiredNone(points: seq<JumpPoint>, oldest: int)
    requires forall p :: p in points ==> p.added < oldest
    ensures Unexpired(points, oldest) == []
    decreases |points|
  {
    if points != [] {
      var init := points[..|points| - 1];
      assert forall p :: p in init ==> p in points;
      UnexpiredNone(init, oldest);
    }
  }

  /** A cutoff after every point leaves nothing. */
  lemma PrunedAllExpired(m: PointsMap, oldest: int)
    requires forall pid, p :: pid in m && p in m[pid] ==> p.added < oldest
    ensures Pruned(m, oldest) == map[]
  {
    forall pid | pid in m
      ensures Unexpired(m[pid], oldest) == []
    {
      UnexpiredNone(m[pid], oldest);
    }
    assert Pruned(m, oldest).Keys == {};
  }

  /** A loaded map has no empty list, so saving it writes it unchanged. */
  lemma SaveLoaded(m: PointsMap, oldest: int)
    ensures WithoutEmpty(Pruned(m, oldest)) == Pruned(m, oldest)
  {
    assert WithoutEmpty(Pruned(m, oldest)).Keys == Pruned(m, oldest).Keys;
  }

  /** A saved map whose points are all recent enough is loaded back as it
      was saved. */
  lemma LoadSaved(m: PointsMap, oldest: int)
    requires forall pid, p :: pid in m && p in m[pid] ==> p.added >= oldest
    ensures Pruned(WithoutEmpty(m), oldest) == WithoutEmpty(m)
  {
    var s := WithoutEmpty(m);
    forall pid | pid in s
      ensures Unexpired(s[pid], oldest) == s[pid]
    {
      UnexpiredKeepsAll(s[pid], oldest);
    }
    assert Pruned(s, oldest).Keys == s.Keys;
  }

  // ---------------------------------------------------------------------
  // The saved example

  /** The two points of the saved example: 07:59:59 and 08:00:00 UTC on
      3 October 2023. */
  const Foo := JumpPoint("/tmp/foo", 9, 42, 1696319999)
  const Bar := JumpPoint("/tmp/bar", 17, 23, 1696320000)

  /** The saved example as a parsed map. */
  const Saved: PointsMap := map[123 := [Foo, Bar]]

  lemma ExampleLists()
    ensures Unexpired([Foo, Bar], 1696319999) == [Foo, Bar]
    ensures Unexpired([Foo, Bar], 1696320000) == [Bar]
    ensures Unexpired([Foo, Bar], 1696320001) == []
  {
    ExampleList(1696319999);
    ExampleList(1696320000);
    ExampleList(1696320001);
  }

  /** Pruning the example list, one point at a time. */
  lemma ExampleList(oldest: int)
    ensures Unexpired([Foo, Bar], oldest) ==
      (if Foo.added >= oldest then [Foo] else []) + (if Bar.added >= oldest then [Bar] else [])
  {
    assert [Foo, Bar][..1] == [Foo];
    assert [Foo][..0] == [];
  }

  /** Pruning a store that holds a single process. */
  lemma PrunedSingle(pid: int, points: seq<JumpPoint>, oldest: int)
    ensures var u := Unexpired(points, oldest);
      Pruned(map[pid := points], oldest) == if u == [] then map[] else map[pid := u]
  {
    var u := Unexpired(points, oldest);
    var r := Pruned(map[pid := points], oldest);
    PrunedAt(map[pid := points], oldest, pid);
    assert r.Keys == if u == [] then {} else {pid};
  }

  /** At 07:59:59 both points are current. */
  lemma AllPointsAreCurrent()
    ensures Pruned(Saved, 1696319999) == map[123 := [Foo, Bar]]
  {
    ExampleLists();
    PrunedSingle(123, [Foo, Bar], 1696319999);
  }

  /** At 08:00:00 the cutoff is inclusive: the 07:59:59 point goes and the
      08:00:00 point stays. */
  lemma SomePointsAreCurrent()
    ensures Pruned(Saved, 1696320000) == map[123 := [Bar]]
  {
    ExampleLists();
    PrunedSingle(123, [Foo, Bar], 1696320000);
  }

  /** At 08:00:01 no point is current and the process goes too. */
  lemma NoPointsAreCurrent()
    ensures Pruned(Saved, 1696320001) == map[]
  {
    ExampleLists();
    PrunedSingle(123, [Foo, Bar], 1696320001);
  }

  // ---------------------------------------------------------------------
  // Pushing and popping

  /** The map with `p` pushed on the stack of `pid`, created when missing. */
  function Pushed(m: PointsMap, pid: int, p: JumpPoint): PointsMap {
    m[pid := (if pid in m then m[pid] else []) + [p]]
  }

  /** The map with the last point of `pid` removed. */
  function Popped(m: PointsMap, pid: int): PointsMap
    requires pid in m && m[pid] != []
  {
    m[pid := m[pid][..|m[pid]| - 1]]
  }

  /** Pushing grows the stack of `pid` by exactly the new point at its end,
      and changes no other process. */
  lemma PushedStack(m: PointsMap, pid: int, p: JumpPoint)
    ensures var r := Pushed(m, pid, p);
      && r.Keys == m.Keys + {pid}
      && |r[pid]| == (if pid in m then |m[pid]| else 0) + 1
      && r[pid][|r[pid]| - 1] == p
      && r[pid][..|r[pid]| - 1] == (if pid in m then m[pid] else [])
      && forall q :: q in m && q != pid ==> r[q] == m[q]
  {
    var r := Pushed(m, pid, p);
    assert r[pid][..|r[pid]| - 1] == (if pid in m then m[pid] else []);
  }

  /** Popping right after a push gives back the pushed point, and the saved
      map is the one saved before the push. */
  lemma PopAfterPush(m: PointsMap, pid: int, p: JumpPoint)
    ensures var r := Pushed(m, pid, p);
      && r[pid][|r[pid]| - 1] == p
      && WithoutEmpty(Popped(r, pid)) == WithoutEmpty(m)
  {
    var r := Pushed(m, pid, p);
    PushedStack(m, pid, p);
    var s, t := WithoutEmpty(Popped(r, pid)), WithoutEmpty(m);
    assert s.Keys == t.Keys;
  }

  /** A point recorded at `now` survives the pruning at `now - MaxAge`. */
  lemma NewPointKept(points: seq<JumpPoint>, p: JumpPoint, now: int)
    requires p.added == now
    ensures Unexpired(points + [p], now - MaxAge) == Unexpired(points, now - MaxAge) + [p]
  {
    UnexpiredAppend(points, [p], now - MaxAge);
    assert Unexpired([p], now - MaxAge) == [p] by {
      assert [p][..0] == [];
    }
  }

  // ---------------------------------------------------------------------
  // The jump target

  function DigitChar(d: int): char
    requires 0 <= d < 10
  {
    "0123456789"[d]
  }

  predicate AllDigits(s: string) {
    forall i :: 0 <= i < |s| ==> '0' <= s[i] <= '9'
  }

  /** The decimal digits of `n`, without leading zeros. */
  function NatDecimal(n: nat): (s: string)
    ensures s != [] && AllDigits(s)
    ensures |s| > 1 ==> s[0] != '0'
  {
    if n < 10 then [DigitChar(n)] else NatDecimal(n / 10) + [DigitChar(n % 10)]
  }

  /** How Rust's `Display` and Python's `str` write an integer. */
  function Decimal(n: int): (s: string)
    ensures s != [] && ':' !in s
    ensures AllDigits(s[1..]) && (s[0] == '-' || '0' <= s[0] <= '9')
  {
    if n < 0 then "-" + NatDecimal(-n) else NatDecimal(n)
  }

  /** The value of a string of decimal digits. */
  function ParseNat(s: string): nat
    requires AllDigits(s)
    decreases |s|
  {
    if s == [] then 0
    else 10 * ParseNat(s[..|s| - 1]) + (s[|s| - 1] as int - '0' as int)
  }

  /** The value of an optionally signed decimal integer. */
  function ParseDecimal(s: string): int
    requires s != [] && AllDigits(s[1..]) && (s[0] == '-' || '0' <= s[0] <= '9')
  {
    if s[0] == '-' then 0 - ParseNat(s[1..])
    else
      assert s == [s[0]] + s[1..];
      ParseNat(s)
  }

  lemma {:induction false} NatDecimalRoundTrip(n: nat)
    ensures ParseNat(NatDecimal(n)) == n
  {
    if n >= 10 {
      var s := NatDecimal(n);
      assert s[..|s| - 1] == NatDecimal(n / 10);
      NatDecimalRoundTrip(n / 10);
    }
  }

  /** Reading the written integer back gives the integer. */
  lemma DecimalRoundTrip(n: int)
    ensures ParseDecimal(Decimal(n)) == n
  {
    if n < 0 {
      NegativeRoundTrip(n);
    } else {
      ParseUnsigned(NatDecimal(n));
      NatDecimalRoundTrip(n);
    }
  }

  lemma NegativeRoundTrip(n: int)
    requires n < 0
    ensures ParseDecimal(Decimal(n)) == n
  {
    NatDecimalRoundTrip(-n);
    ParseNegative(NatDecimal(-n), -n);
  }

  lemma ParseNegative(d: string, m: nat)
    requires d != [] && AllDigits(d) && ParseNat(d) == m
    ensures ParseDecimal("-" + d) == -(m as int)
  {
    assert ("-" + d)[1..] == d;
  }

  lemma ParseUnsigned(d: string)
    requires d != [] && AllDigits(d)
    ensures ParseDecimal(d) == ParseNat(d)
  {
  }

  /** The editor argument that jumps to a point: `+line:column`. */
  function JumpArg(p: JumpPoint): string {
    "+" + Decimal(p.line) + ":" + Decimal(p.column)
  }

  /** The argument holds one colon, with the line between the `+` and it and
      the column after it. */
  lemma JumpArgRoundTrip(p: JumpPoint)
    ensures var s, k := JumpArg(p), 1 + |Decimal(p.line)|;
      && k + 1 < |s| && s[0] == '+' && s[k] == ':'
      && ':' !in s[1..k] && ':' !in s[k + 1..]
      && s[1..k] == Decimal(p.line) && s[k + 1..] == Decimal(p.column)
  {
    var s, k := JumpArg(p), 1 + |Decimal(p.line)|;
    assert s[1..k] == Decimal(p.line);
    assert s[k + 1..] == Decimal(p.column);
  }

  /** The command line that opens the editor at a point. */
  function JumpCommand(p: JumpPoint): seq<string> {
    ["/usr/local/bin/bbedit", JumpArg(p), p.filename]
  }

  // ---------------------------------------------------------------------
  // The push and pop programs, shared by the Rust binaries and the Python
  // script

  datatype Option<T> = None | Some(value: T)

  /** What a push run does: nothing when it was not started by the editor
      (its document variables are missing), otherwise it writes `saved`. */
  datatype PushOutcome = NotLaunchedFromEditor | Wrote(saved: PointsMap)

  /** A push run given the editor's document variables, each missing or set. */
  function PushRun(stored: PointsMap, pid: int, docPath: Option<string>, line: Option<int>, column: Option<int>, now: int): PushOutcome {
    if docPath.None? || line.None? || column.None? then NotLaunchedFromEditor
    else Wrote(PushAt(stored, pid, docPath.value, line.value, column.value, now))
  }

  /** What a pop run does: nothing when the front process has no current
      point, otherwise it saves `saved` and sends the editor to `target`. */
  datatype PopOutcome = NoPoints | Jumped(saved: PointsMap, target: JumpPoint)

  /** The store a push run writes: the loaded store with the point recorded
      at `now` pushed on the stack of `pid`. */
  function PushAt(stored: PointsMap, pid: int, filename: string, line: int, column: int, now: int): PointsMap {
    WithoutEmpty(Pushed(Pruned(stored, now - MaxAge), pid, JumpPoint(filename, line, column, now)))
  }

  /** What a pop run does on the store at `now`. */
  function PopAt(stored: PointsMap, pid: int, now: int): PopOutcome {
    var loaded := Pruned(stored, now - MaxAge);
    if pid in loaded then
      Jumped(WithoutEmpty(Popped(loaded, pid)), loaded[pid][|loaded[pid]| - 1])
    else
      NoPoints
  }

  /** A push writes the loaded store with exactly the new point added on top
      of the stack of `pid`; the written store has no empty list and holds
      nothing a load at the same moment would drop. */
  lemma PushWrites(stored: PointsMap, pid: int, filename: string, line: int, column: int, now: int)
    ensures var loaded, p, saved := Pruned(stored, now - MaxAge), JumpPoint(filename, line, column, now),
        PushAt(stored, pid, filename, line, column, now);
      && saved.Keys == loaded.Keys + {pid}
      && saved[pid] == (if pid in loaded then loaded[pid] else []) + [p]
      && (forall q :: q in loaded && q != pid ==> saved[q] == loaded[q])
      && Pruned(saved, now - MaxAge) == saved
  {
    var c := now - MaxAge;
    var loaded, p := Pruned(stored, c), JumpPoint(filename, line, column, now);
    PushedStack(loaded, pid, p);
    PushedNoEmpty(loaded, pid, p);
    PushedRecent(loaded, pid, p, c);
    LoadSaved(Pushed(loaded, pid, p), c);
  }

  /** Pushing onto a store without empty lists leaves none. */
  lemma PushedNoEmpty(m: PointsMap, pid: int, p: JumpPoint)
    requires forall q :: q in m ==> m[q] != []
    ensures WithoutEmpty(Pushed(m, pid, p)) == Pushed(m, pid, p)
  {
    var r := Pushed(m, pid, p);
    forall q | q in r
      ensures r[q] != []
    {
      if q == pid {
        assert |r[q]| == (if pid in m then |m[pid]| else 0) + 1;
      }
    }
    assert WithoutEmpty(r).Keys == r.Keys;
  }

  /** Pushing a recent point onto a store of recent points keeps it recent. */
  lemma PushedRecent(m: PointsMap, pid: int, p: JumpPoint, oldest: int)
    requires forall q :: q in m ==> forall x :: x in m[q] ==> x.added >= oldest
    requires p.added >= oldest
    ensures forall q, x :: q in Pushed(m, pid, p) && x in Pushed(m, pid, p)[q] ==> x.added >= oldest
  {
  }

  /** A pop jumps to the last point pushed that is still current for the
      front process and writes the loaded store without it, keeping every
      other current point and dropping the process when that was its last
      point; it writes nothing when the process has no current point. */
  lemma PopWrites(stored: PointsMap, pid: int, now: int)
    ensures var loaded := Pruned(stored, now - MaxAge);
      match PopAt(stored, pid, now)
      case NoPoints => pid !in stored || forall p :: p in stored[pid] ==> p.added < now - MaxAge
      case Jumped(saved, target) =>
        && pid in loaded && target == loaded[pid][|loaded[pid]| - 1]
        && target in stored[pid] && target.added >= now - MaxAge
        && (forall p :: p in stored[pid] && p.added >= now - MaxAge ==> p == target || (pid in saved && p in saved[pid]))
        && (pid in saved <==> |loaded[pid]| > 1)
        && (pid in saved ==> saved[pid] + [target] == loaded[pid])
        && (forall q :: q != pid ==> (q in saved <==> q in loaded) && (q in saved ==> saved[q] == loaded[q]))
  {
    var loaded := Pruned(stored, now - MaxAge);
    PrunedKeys(stored, now - MaxAge);
    if pid in loaded {
      var points := loaded[pid];
      assert points[|points| - 1] in points;
      PoppedStack(loaded, pid);
    }
  }

  /** Popping a store without empty lists: the top of the stack of `pid`
      comes off, the process goes when that was its last point, and no other
      process changes. */
  lemma PoppedStack(m: PointsMap, pid: int)
    requires forall q :: q in m ==> m[q] != []
    requires pid in m
    ensures var points, saved := m[pid], WithoutEmpty(Popped(m, pid));
      var target := points[|points| - 1];
      && (pid in saved <==> |points| > 1)
      && (pid in saved ==> saved[pid] + [target] == points)
      && (forall x :: x in points ==> x == target || (pid in saved && x in saved[pid]))
      && (forall q :: q != pid ==> (q in saved <==> q in m) && (q in saved ==> saved[q] == m[q]))
  {
    var points, saved := m[pid], WithoutEmpty(Popped(m, pid));
    var target := points[|points| - 1];
    var init := points[..|points| - 1];
    assert init + [target] == points;
    forall x | x in points
      ensures x == target || (pid in saved && x in saved[pid])
    {
      var i :| 0 <= i < |points| && points[i] == x;
      if i < |points| - 1 {
        assert init[i] == x;
      }
    }
  }

  /** A pop at the moment of a push goes back to the pushed point and writes
      the store as the push loaded it. */
  lemma PopAfterPushAt(stored: PointsMap, pid: int, filename: string, line: int, column: int, now: int)
    ensures PopAt(PushAt(stored, pid, filename, line, column, now), pid, now)
      == Jumped(Pruned(stored, now - MaxAge), JumpPoint(filename, line, column, now))
  {
    var c := now - MaxAge;
    var loaded, p := Pruned(stored, c), JumpPoint(filename, line, column, now);
    var pushed := Pushed(loaded, pid, p);
    assert WithoutEmpty(pushed) == pushed by {
      assert WithoutEmpty(pushed).Keys == pushed.Keys;
    }
    assert Pruned(pushed, c) == pushed by {
      LoadSaved(pushed, c);
    }
    assert WithoutEmpty(Popped(pushed, pid)) == loaded by {
      PopAfterPush(loaded, pid, p);
      SaveLoaded(stored, c);
    }
  }
}
