/** Log rotation: keep the newest runs of a log, whole. */
module Rotate {
  import opened Bytes

  const MAX_BYTES: int := 10 * 1024 * 1024
  const MAX_RUNS: int := 5
  const NEWLINE: byte := 10

  // -------------------------------------------------------------- lines, runs

  /** `bytes.SplitAfter` at newlines: every line but the last ends in one. */
  function Lines(d: seq<byte>): (ls: seq<seq<byte>>)
    ensures |ls| > 0
  {
    if d == [] then [[]]
    else
      var rest := Lines(d[1..]);
      if d[0] == NEWLINE then [[NEWLINE]] + rest else [[d[0]] + rest[0]] + rest[1..]
  }

  /** The loop of `splitRuns`, with the run under construction. */
  function Group(ls: seq<seq<byte>>, sentinel: seq<byte>, cur: seq<byte>): seq<seq<byte>> {
    if ls == [] then (if |cur| > 0 then [cur] else [])
    else if Contains(ls[0], sentinel) && |cur| > 0 then [cur] + Group(ls[1..], sentinel, ls[0])
    else Group(ls[1..], sentinel, cur + ls[0])
  }

  function Runs(d: seq<byte>, sentinel: seq<byte>): seq<seq<byte>> {
    Group(Lines(d), sentinel, [])
  }

  method SplitRuns(data: seq<byte>, sentinel: seq<byte>) returns (runs: seq<seq<byte>>)
    ensures runs == Runs(data, sentinel)
  {
    var lines := Lines(data);
    var cur: seq<byte> := [];
    runs := [];
    var i := 0;
    while i < |lines|
      invariant i <= |lines|
      invariant Runs(data, sentinel) == runs + Group(lines[i..], sentinel, cur)
    {
      var line := lines[i];
      assert lines[i..][1..] == lines[i + 1..];
      if Contains(line, sentinel) && |cur| > 0 {
        assert runs + ([cur] + Group(lines[i + 1..], sentinel, line))
            == runs + [cur] + Group(lines[i + 1..], sentinel, line);
        runs := runs + [cur];
        cur := line;
      } else {
        cur := cur + line;
      }
      i := i + 1;
    }
    if |cur| > 0 { runs := runs + [cur]; }
  }

  // ------------------------------------------------------------- nothing lost

  lemma {:induction false} LinesJoin(d: seq<byte>)
    ensures Concat(Lines(d)) == d
  {
    if d != [] {
      LinesJoin(d[1..]);
      var rest := Lines(d[1..]);
      assert d == [d[0]] + d[1..];
      if d[0] == NEWLINE {
        assert Lines(d)[1..] == rest;
      } else {
        assert Lines(d)[1..] == rest[1..];
        assert [d[0]] + rest[0] + Concat(rest[1..]) == [d[0]] + (rest[0] + Concat(rest[1..]));
      }
    }
  }

  lemma {:induction false} GroupJoin(ls: seq<seq<byte>>, sentinel: seq<byte>, cur: seq<byte>)
    ensures Concat(Group(ls, sentinel, cur)) == cur + Concat(ls)
    ensures forall r :: r in Group(ls, sentinel, cur) ==> |r| > 0
    decreases |ls|
  {
    if ls != [] {
      if Contains(ls[0], sentinel) && |cur| > 0 {
        GroupJoin(ls[1..], sentinel, ls[0]);
        var g := Group(ls[1..], sentinel, ls[0]);
        assert ([cur] + g)[1..] == g;
      } else {
        GroupJoin(ls[1..], sentinel, cur + ls[0]);
        assert cur + ls[0] + Concat(ls[1..]) == cur + (ls[0] + Concat(ls[1..]));
      }
    } else if |cur| > 0 {
      assert Concat([cur]) == cur + Concat([cur][1..]);
    }
  }

  /** The runs are the data, cut up: none is empty, and joined they give the
      data back. */
  lemma RunsJoin(d: seq<byte>, sentinel: seq<byte>)
    ensures Concat(Runs(d, sentinel)) == d
    ensures forall r :: r in Runs(d, sentinel) ==> |r| > 0
    ensures d != [] ==> Runs(d, sentinel) != []
  {
    LinesJoin(d);
    GroupJoin(Lines(d), sentinel, []);
  }

  // ------------------------------------------------------- where a run begins

  /** The bytes from `p` to before `e` are a line and its newline, or the last
      line without one. */
  predicate LineAt(d: seq<byte>, p: int, e: int) {
    0 <= p < e <= |d| && (forall j :: p <= j < e - 1 ==> d[j] != 10) && (e == |d| || d[e - 1] == 10)
  }

  /** A line behind another one, with the sentinel in it, begins at `p`. */
  ghost predicate MarkedAt(d: seq<byte>, sentinel: seq<byte>, p: int) {
    0 < p < |d| && d[p - 1] == 10 && exists e :: LineAt(d, p, e) && Contains(d[p..e], sentinel)
  }

  /** Run number `k`, not the first, begins `p` bytes into the data. */
  predicate BeginsAt(runs: seq<seq<byte>>, k: nat, p: int) {
    0 < k < |runs| && |Concat(runs[..k])| == p
  }

  // The same, counted along the runs and along the lines.
  predicate Cut(runs: seq<seq<byte>>, p: int) {
    |runs| > 1 && (p == |runs[0]| || Cut(runs[1..], p - |runs[0]|))
  }

  predicate Mark(ls: seq<seq<byte>>, sentinel: seq<byte>, p: int) {
    ls != [] && ((p == 0 && ls[0] != [] && Contains(ls[0], sentinel)) || Mark(ls[1..], sentinel, p - |ls[0]|))
  }

  lemma BeginsFirst(runs: seq<seq<byte>>, p: int)
    requires |runs| > 1
    ensures BeginsAt(runs, 1, p) <==> p == |runs[0]|
  {
    assert runs[..1] == [runs[0]];
    assert Concat([runs[0]]) == runs[0] + Concat([runs[0]][1..]);
  }

  lemma BeginsLater(runs: seq<seq<byte>>, k: nat, p: int)
    requires 1 < k < |runs|
    ensures BeginsAt(runs, k, p) <==> BeginsAt(runs[1..], k - 1, p - |runs[0]|)
  {
    assert runs[..k][1..] == runs[1..][..k - 1];
  }

  /** Cuts are where runs begin. */
  lemma {:induction false} CutBegins(runs: seq<seq<byte>>, p: int)
    ensures Cut(runs, p) <==> exists k: nat :: BeginsAt(runs, k, p)
  {
    if |runs| > 1 {
      var rest, q := runs[1..], p - |runs[0]|;
      CutBegins(rest, q);
      BeginsFirst(runs, p);
      forall k: nat | 1 < k < |runs|
        ensures BeginsAt(runs, k, p) <==> BeginsAt(rest, k - 1, q)
      {
        BeginsLater(runs, k, p);
      }
      if k: nat :| BeginsAt(rest, k, q) { assert BeginsAt(runs, k + 1, p); }
    }
  }

  predicate Filled(ls: seq<seq<byte>>) {
    forall i :: 0 <= i < |ls| - 1 ==> |ls[i]| > 0
  }

  /** Grouping cuts in front of the marked lines. */
  lemma {:induction false} GroupCuts(ls: seq<seq<byte>>, sentinel: seq<byte>, cur: seq<byte>, p: int)
    requires cur != [] && Filled(ls)
    ensures Cut(Group(ls, sentinel, cur), p) <==> Mark(ls, sentinel, p - |cur|)
    ensures Group(ls, sentinel, cur) != []
    decreases |ls|
  {
    if ls != [] {
      if ls[0] == [] {
        assert ls[1..] == [] && cur + ls[0] == cur;
      } else if Contains(ls[0], sentinel) {
        var g := Group(ls[1..], sentinel, ls[0]);
        GroupCuts(ls[1..], sentinel, ls[0], p - |cur|);
        assert ([cur] + g)[1..] == g;
      } else {
        GroupCuts(ls[1..], sentinel, cur + ls[0], p);
      }
    }
  }

  /** The first line and what follows it. */
  lemma {:induction false} FirstLine(d: seq<byte>)
    ensures var first := Lines(d)[0];
            && first <= d
            && (forall j :: 0 <= j < |first| - 1 ==> d[j] != 10)
            && (if |Lines(d)| == 1 then first == d && 10 !in d else first != [] && d[|first| - 1] == 10)
  {
    if d != [] && d[0] != NEWLINE {
      FirstLine(d[1..]);
      assert d == [d[0]] + d[1..];
    }
  }

  lemma LineEnds(d: seq<byte>, p: int, e: int, f: int)
    requires LineAt(d, p, e) && LineAt(d, p, f)
    ensures e == f
  {
  }

  /** The first line of the data, told by the bytes. */
  lemma FirstIsLine(d: seq<byte>, e: int)
    requires d != []
    ensures LineAt(d, 0, e) <==> e == |Lines(d)[0]|
    ensures |Lines(d)[0]| <= |d| && d[0..|Lines(d)[0]|] == Lines(d)[0]
  {
    FirstLine(d);
    assert LineAt(d, 0, |Lines(d)[0]|);
    if LineAt(d, 0, e) { LineEnds(d, 0, e, |Lines(d)[0]|); }
  }

  lemma LineShift(d: seq<byte>, n: nat, p: int, e: int)
    requires n <= |d| && n <= p
    ensures LineAt(d, p, e) <==> LineAt(d[n..], p - n, e - n)
    ensures LineAt(d, p, e) ==> d[p..e] == d[n..][p - n..e - n]
  {
    var rest := d[n..];
    assert forall j :: n <= j < |d| ==> rest[j - n] == d[j];
    if LineAt(rest, p - n, e - n) {
      forall j | p <= j < e - 1 ensures d[j] != 10 { assert rest[j - n] != 10; }
    }
  }

  /** Behind the first line, marks are where they were. */
  lemma MarkedLater(d: seq<byte>, n: nat, sentinel: seq<byte>, p: int)
    requires 0 < n < p && n <= |d|
    ensures MarkedAt(d, sentinel, p) <==> MarkedAt(d[n..], sentinel, p - n)
  {
    var rest := d[n..];
    forall e
      ensures LineAt(d, p, e) <==> LineAt(rest, p - n, e - n)
      ensures LineAt(d, p, e) ==> d[p..e] == rest[p - n..e - n]
    {
      LineShift(d, n, p, e);
    }
    if MarkedAt(d, sentinel, p) {
      var e :| LineAt(d, p, e) && Contains(d[p..e], sentinel);
      assert LineAt(rest, p - n, e - n);
    }
    if MarkedAt(rest, sentinel, p - n) {
      var e :| LineAt(rest, p - n, e) && Contains(rest[p - n..e], sentinel);
      assert LineAt(d, p, e + n);
    }
  }

  /** The line behind the first one. */
  lemma MarkedNext(d: seq<byte>, n: nat, sentinel: seq<byte>)
    requires 0 < n < |d| && d[n - 1] == 10
    ensures MarkedAt(d, sentinel, n) <==> Contains(Lines(d[n..])[0], sentinel)
  {
    var rest := d[n..];
    var m := |Lines(rest)[0]|;
    FirstIsLine(rest, m);
    LineShift(d, n, n, n + m);
    if MarkedAt(d, sentinel, n) {
      var e :| LineAt(d, n, e) && Contains(d[n..e], sentinel);
      LineEnds(d, n, e, n + m);
    }
  }

  lemma NoMark(sentinel: seq<byte>, p: int)
    ensures !Mark([[]], sentinel, p)
  {
    var ls: seq<seq<byte>> := [[]];
    assert ls[1..] == [];
  }

  lemma {:induction false} MarkBefore(ls: seq<seq<byte>>, sentinel: seq<byte>, p: int)
    requires p < 0
    ensures !Mark(ls, sentinel, p)
  {
    if ls != [] { MarkBefore(ls[1..], sentinel, p - |ls[0]|); }
  }

  /** The lines of what follows the first line. */
  lemma {:induction false} LinesTail(d: seq<byte>)
    requires |Lines(d)| > 1
    ensures |Lines(d)[0]| <= |d| && Lines(d[|Lines(d)[0]|..]) == Lines(d)[1..]
  {
    var rest := Lines(d[1..]);
    if d[0] == NEWLINE {
      assert Lines(d)[1..] == rest;
    } else {
      LinesTail(d[1..]);
      assert Lines(d)[1..] == rest[1..];
      assert d[1..][|rest[0]|..] == d[1 + |rest[0]|..];
    }
  }

  /** Marked lines, counted along the lines and told by the bytes. */
  lemma {:induction false} MarksAre(d: seq<byte>, sentinel: seq<byte>, p: int)
    requires d != []
    ensures Mark(Lines(d)[1..], sentinel, p - |Lines(d)[0]|) <==> MarkedAt(d, sentinel, p)
    decreases |d|
  {
    var ls := Lines(d);
    var n := |ls[0]|;
    FirstLine(d);
    if |ls| > 1 {
      LinesTail(d);
      var rest := d[n..];
      assert Lines(rest) == ls[1..];
      if rest == [] {
        assert Lines(rest) == [[]];
        NoMark(sentinel, p - n);
        if 0 < p < |d| { assert d[p - 1] != 10; }
      } else {
        FirstLine(rest);
        MarkedNext(d, n, sentinel);
        if p > n {
          MarkedLater(d, n, sentinel, p);
          MarksAre(rest, sentinel, p - n);
          assert ls[1..][1..] == Lines(rest)[1..];
        } else {
          MarkBefore(Lines(rest)[1..], sentinel, p - n - |Lines(rest)[0]|);
          if 0 < p < n { assert d[p - 1] != 10; }
        }
      }
    }
  }

  lemma {:induction false} LinesFilled(d: seq<byte>)
    ensures Filled(Lines(d)) && (d != [] ==> |Lines(d)[0]| > 0)
  {
    if d != [] {
      LinesFilled(d[1..]);
    }
  }

  lemma NoRuns(sentinel: seq<byte>)
    ensures Runs([], sentinel) == []
  {
    var ls: seq<seq<byte>> := [[]];
    assert Lines([]) == ls && ls[1..] == [] && ls[0] == [];
    var cur: seq<byte> := [];
    assert cur + ls[0] == cur;
    assert Group(ls, sentinel, cur) == Group([], sentinel, cur) == [];
  }

  /** Where the runs begin, told by the bytes alone: at 0, and wherever a line
      behind another one has the sentinel in it. */
  lemma RunsBegin(d: seq<byte>, sentinel: seq<byte>, p: int)
    ensures (exists k: nat :: BeginsAt(Runs(d, sentinel), k, p)) <==> MarkedAt(d, sentinel, p)
  {
    CutBegins(Runs(d, sentinel), p);
    if d == [] {
      NoRuns(sentinel);
    } else {
      LinesFilled(d);
      var ls := Lines(d);
      assert [] + ls[0] == ls[0];
      GroupCuts(ls[1..], sentinel, ls[0], p);
      MarksAre(d, sentinel, p);
    }
  }

  // --------------------------------------------------- splitting again is safe

  /** Any suffix of the lines is the lines of its own join. */
  lemma {:induction false} LinesSuffix(d: seq<byte>, m: nat)
    requires m < |Lines(d)|
    ensures Lines(Concat(Lines(d)[m..])) == Lines(d)[m..]
    decreases m
  {
    LinesJoin(d);
    if m == 0 {
      assert Lines(d)[0..] == Lines(d);
    } else {
      LinesTail(d);
      var next := d[|Lines(d)[0]|..];
      LinesSuffix(next, m - 1);
      assert Lines(next)[m - 1..] == Lines(d)[m..];
    }
  }

  /** Behind the first run, grouping starts afresh at some line. */
  lemma {:induction false} Restart(ls: seq<seq<byte>>, sentinel: seq<byte>, cur: seq<byte>) returns (m: nat)
    requires |Group(ls, sentinel, cur)| > 1
    ensures m < |ls| && Group(ls, sentinel, cur)[1..] == Group(ls[m..], sentinel, [])
    decreases |ls|
  {
    if Contains(ls[0], sentinel) && |cur| > 0 {
      m := 0;
      assert [] + ls[0] == ls[0] && ls[0..] == ls;
      assert Group(ls, sentinel, cur)[1..] == Group(ls[1..], sentinel, ls[0]);
    } else {
      m := Restart(ls[1..], sentinel, cur + ls[0]);
      assert ls[1..][m..] == ls[m + 1..];
      m := m + 1;
    }
  }

  lemma DropFirst(d: seq<byte>, sentinel: seq<byte>)
    requires Runs(d, sentinel) != []
    ensures Runs(Concat(Runs(d, sentinel)[1..]), sentinel) == Runs(d, sentinel)[1..]
  {
    var runs := Runs(d, sentinel);
    if |runs| > 1 {
      var m := Restart(Lines(d), sentinel, []);
      GroupJoin(Lines(d)[m..], sentinel, []);
      assert [] + Concat(Lines(d)[m..]) == Concat(Lines(d)[m..]);
      LinesSuffix(d, m);
    } else {
      assert runs[1..] == [];
      NoRuns(sentinel);
    }
  }

  /** Splitting the join of any retained suffix of runs gives those runs back,
      for every content and every sentinel. */
  lemma {:induction false} SuffixStable(d: seq<byte>, sentinel: seq<byte>, k: nat)
    requires k <= |Runs(d, sentinel)|
    ensures Runs(Concat(Runs(d, sentinel)[k..]), sentinel) == Runs(d, sentinel)[k..]
    decreases k
  {
    var runs := Runs(d, sentinel);
    if k == 0 {
      RunsJoin(d, sentinel);
      assert runs[0..] == runs;
    } else {
      DropFirst(d, sentinel);
      SuffixStable(Concat(runs[1..]), sentinel, k - 1);
      assert runs[1..][k - 1..] == runs[k..];
    }
  }

  // ------------------------------------------------------------- what is kept

  /** A suffix the rotation may leave. */
  predicate Allowed(runs: seq<seq<byte>>) {
    |runs| <= MAX_RUNS - 1 && (|Concat(runs)| <= MAX_BYTES || |runs| == 1)
  }

  function Dropped(runs: seq<seq<byte>>): (k: nat)
    ensures k <= |runs|
  {
    if Allowed(runs) || runs == [] then 0 else 1 + Dropped(runs[1..])
  }

  function Retained(runs: seq<seq<byte>>): seq<seq<byte>> { runs[Dropped(runs)..] }

  function Rotated(d: seq<byte>, sentinel: seq<byte>): seq<byte> {
    Concat(Retained(Runs(d, sentinel)))
  }

  /** What is left is an allowed suffix, and every allowed suffix is at most as
      long: the rotation drops no run it could have kept. */
  lemma {:induction false} RetainedLongest(runs: seq<seq<byte>>, j: nat)
    requires runs != [] && j <= |runs|
    ensures Allowed(Retained(runs)) && Retained(runs) != []
    ensures 1 <= |Retained(runs)| <= 4 && (|Concat(Retained(runs))| <= 10 * 1024 * 1024 || |Retained(runs)| == 1)
    ensures |runs[j..]| <= 4 && (|Concat(runs[j..])| <= 10 * 1024 * 1024 || |runs[j..]| == 1) ==> Dropped(runs) <= j
    decreases |runs|
  {
    assert runs[0..] == runs;
    if !Allowed(runs) {
      if |runs| > 1 {
        RetainedLongest(runs[1..], if j == 0 then 0 else j - 1);
        assert Retained(runs) == runs[1..][Dropped(runs[1..])..];
        if j > 0 { assert runs[1..][j - 1..] == runs[j..]; }
      }
    }
  }

  /** Rotating twice is rotating once. */
  lemma Idempotent(d: seq<byte>, sentinel: seq<byte>)
    ensures Runs(Rotated(d, sentinel), sentinel) == Retained(Runs(d, sentinel))
    ensures Rotated(Rotated(d, sentinel), sentinel) == Rotated(d, sentinel)
  {
    var runs := Runs(d, sentinel);
    SuffixStable(d, sentinel, Dropped(runs));
    if runs != [] {
      RetainedLongest(runs, 0);
      assert Dropped(Retained(runs)) == 0;
    }
  }

  /** The summing loop of `RotateLog`. */
  method TotalSize(runs: seq<seq<byte>>) returns (total: nat)
    ensures total == |Concat(runs)|
  {
    total := 0;
    var i := 0;
    while i < |runs|
      invariant i <= |runs|
      invariant total == |Concat(runs[..i])|
    {
      assert runs[..i + 1] == runs[..i] + [runs[i]];
      ConcatAppend(runs[..i], [runs[i]]);
      assert Concat([runs[i]]) == runs[i] + Concat([runs[i]][1..]);
      total := total + |runs[i]|;
      i := i + 1;
    }
    assert runs[..i] == runs;
  }

  /** More runs than may stay: the oldest go whatever their size. */
  lemma {:induction false} SkipMany(runs: seq<seq<byte>>, n: nat)
    requires n == |runs| - (MAX_RUNS - 1)
    ensures Retained(runs) == Retained(runs[n..])
    decreases n
  {
    if n > 0 {
      assert !Allowed(runs);
      SkipMany(runs[1..], n - 1);
      assert runs[1..][n - 1..] == runs[n..];
      assert Retained(runs) == runs[1..][Dropped(runs[1..])..];
    } else {
      assert runs[0..] == runs;
    }
  }

  /** `RotateLog` on a file: the content it leaves, and whether it writes. An
      unreadable or empty file is left alone. */
  method RotateLog(file: Option<seq<byte>>, sentinel: seq<byte>) returns (write: Option<seq<byte>>)
    ensures file.None? ==> write.None?
    ensures file.Some? ==> (if write.Some? then write.value else file.value) == Rotated(file.value, sentinel)
    ensures file.Some? && write.Some? ==> write.value != file.value
  {
    if file.None? { return None; }
    var data := file.value;
    RunsJoin(data, sentinel);
    if |data| == 0 {
      NoRuns(sentinel);
      return None;
    }
    var runs := SplitRuns(data, sentinel);
    ghost var all := runs;
    if |runs| > MAX_RUNS - 1 {
      SkipMany(all, |runs| - (MAX_RUNS - 1));
      runs := runs[|runs| - (MAX_RUNS - 1)..];
    }
    var total := TotalSize(runs);
    while total > MAX_BYTES && |runs| > 1
      invariant 1 <= |runs| <= MAX_RUNS - 1
      invariant total == |Concat(runs)|
      invariant Retained(runs) == Retained(all)
      decreases |runs|
    {
      assert Retained(runs) == runs[1..][Dropped(runs[1..])..];
      total := total - |runs[0]|;
      runs := runs[1..];
    }
    assert Retained(runs) == runs;
    var trimmed := Concat(runs);
    write := if trimmed != data then Some(trimmed) else None;
  }

  // -------------------------------------------------- room for the next run

  /** Lines that can start a run behind another one. */
  function Marks(ls: seq<seq<byte>>, sentinel: seq<byte>): nat {
    if ls == [] then 0
    else (if |ls[0]| > 0 && Contains(ls[0], sentinel) then 1 else 0) + Marks(ls[1..], sentinel)
  }

  lemma {:induction false} MarksAppend(a: seq<seq<byte>>, b: seq<seq<byte>>, sentinel: seq<byte>)
    ensures Marks(a + b, sentinel) == Marks(a, sentinel) + Marks(b, sentinel)
  {
    if a == [] {
      assert a + b == b;
    } else {
      assert (a + b)[1..] == a[1..] + b;
      MarksAppend(a[1..], b, sentinel);
    }
  }

  lemma {:induction false} GroupCount(ls: seq<seq<byte>>, sentinel: seq<byte>, cur: seq<byte>)
    requires Filled(ls) && |cur| > 0
    ensures |Group(ls, sentinel, cur)| == 1 + Marks(ls, sentinel)
    decreases |ls|
  {
    if ls != [] {
      if |ls[0]| > 0 {
        GroupCount(ls[1..], sentinel, if Contains(ls[0], sentinel) then ls[0] else cur + ls[0]);
      } else {
        assert ls[1..] == [];
      }
    }
  }

  lemma RunCount(d: seq<byte>, sentinel: seq<byte>)
    requires d != []
    ensures |Runs(d, sentinel)| == 1 + Marks(Lines(d)[1..], sentinel)
  {
    LinesFilled(d);
    var ls := Lines(d);
    assert [] + ls[0] == ls[0];
    GroupCount(ls[1..], sentinel, ls[0]);
  }

  /** Two lists of lines, the last of one joined with the first of the other. */
  function Seam(a: seq<seq<byte>>, b: seq<seq<byte>>): seq<seq<byte>>
    requires a != [] && b != []
  {
    a[..|a| - 1] + [a[|a| - 1] + b[0]] + b[1..]
  }

  lemma SeamNewline(c: seq<seq<byte>>, b: seq<seq<byte>>)
    requires c != [] && b != []
    ensures Seam([[NEWLINE]] + c, b) == [[NEWLINE]] + Seam(c, b)
  {
    var a := [[NEWLINE]] + c;
    assert a[..|a| - 1] == [[NEWLINE]] + c[..|c| - 1];
    assert a[|a| - 1] == c[|c| - 1];
  }

  lemma SeamOther(v: byte, c: seq<seq<byte>>, b: seq<seq<byte>>)
    requires c != [] && b != []
    ensures Seam([[v] + c[0]] + c[1..], b) == [[v] + Seam(c, b)[0]] + Seam(c, b)[1..]
  {
    var a, z := [[v] + c[0]] + c[1..], Seam(c, b);
    if |c| == 1 {
      assert c[1..] == [] && [v] + (c[0] + b[0]) == [v] + c[0] + b[0];
      assert z == [c[0] + b[0]] + b[1..];
      assert Seam(a, b) == [[v] + c[0] + b[0]] + b[1..];
    } else {
      var mid, tail := c[1..|c| - 1], [c[|c| - 1] + b[0]] + b[1..];
      assert a[..|a| - 1] == [[v] + c[0]] + mid && a[|a| - 1] == c[|c| - 1];
      assert z == [c[0]] + (mid + tail);
      assert Seam(a, b) == [[v] + c[0]] + (mid + tail);
    }
  }

  /** Appending joins the open last line with the first new one. */
  lemma {:induction false} LinesAppend(x: seq<byte>, y: seq<byte>)
    ensures Lines(x + y) == Seam(Lines(x), Lines(y))
  {
    var b := Lines(y);
    if x == [] {
      assert x + y == y && [] + b[0] == b[0] && b == [b[0]] + b[1..];
    } else {
      LinesAppend(x[1..], y);
      assert (x + y)[1..] == x[1..] + y;
      SeamNewline(Lines(x[1..]), b);
      SeamOther(x[0], Lines(x[1..]), b);
    }
  }

  /** The seam itself can start at most one run more. */
  lemma SeamMarks(a: seq<seq<byte>>, b: seq<seq<byte>>, sentinel: seq<byte>)
    requires a != [] && b != []
    ensures Marks(Seam(a, b)[1..], sentinel) <= Marks(a[1..], sentinel) + 1 + Marks(b[1..], sentinel)
  {
    var n := |a| - 1;
    if n == 0 {
      assert Seam(a, b)[1..] == b[1..];
    } else {
      var join := [a[n] + b[0]];
      assert Seam(a, b)[1..] == a[1..n] + (join + b[1..]);
      assert a[1..] == a[1..n] + [a[n]];
      MarksAppend(a[1..n], join + b[1..], sentinel);
      MarksAppend(join, b[1..], sentinel);
      MarksAppend(a[1..n], [a[n]], sentinel);
      assert Marks(join, sentinel) <= 1 by { assert join[1..] == []; }
    }
  }

  /** Appending never makes more runs than the parts have together, whatever
      sentinels the seam forms or merges. */
  lemma AppendBound(x: seq<byte>, y: seq<byte>, sentinel: seq<byte>)
    ensures |Runs(x + y, sentinel)| <= |Runs(x, sentinel)| + |Runs(y, sentinel)|
  {
    if x == [] {
      assert x + y == y;
    } else if y == [] {
      assert x + y == x;
    } else {
      LinesAppend(x, y);
      SeamMarks(Lines(x), Lines(y), sentinel);
      RunCount(x, sentinel);
      RunCount(y, sentinel);
      RunCount(x + y, sentinel);
    }
  }

  /** After a rotation the log has room for one more run: with the new one it
      holds at most five. */
  lemma RoomForNext(d: seq<byte>, next: seq<byte>, sentinel: seq<byte>)
    requires |Runs(next, sentinel)| == 1
    ensures |Runs(Rotated(d, sentinel) + next, sentinel)| <= 5
  {
    Idempotent(d, sentinel);
    var runs := Runs(d, sentinel);
    if runs != [] { RetainedLongest(runs, 0); }
    AppendBound(Rotated(d, sentinel), next, sentinel);
  }
}
