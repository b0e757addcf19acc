/** The round-robin scheduler: remaining times, a clock, and a scan that starts over wherever the next
    process has not arrived yet. */
module RoundRobin {
  import opened Arithmetic

  // ---------- Sums and counts over the processes ----------

  function Positive(s: seq<int>): nat { if s == [] then 0 else (if s[0] > 0 then 1 else 0) + Positive(s[1..]) }

  lemma {:induction false} UpdateSums(s: seq<int>, i: nat, v: int)
    requires i < |s|
    ensures Sum(s[i := v]) == Sum(s) - s[i] + v
    ensures Positive(s[i := v]) == Positive(s) - (if s[i] > 0 then 1 else 0) + (if v > 0 then 1 else 0)
  {
    var t := s[i := v];
    if i == 0 {
      assert t[1..] == s[1..];
    } else {
      UpdateSums(s[1..], i - 1, v);
      assert t[1..] == s[1..][i - 1 := v];
    }
  }

  lemma {:induction false} NonePositive(s: seq<int>)
    requires forall k | 0 <= k < |s| :: s[k] >= 0
    ensures Positive(s) == 0 <==> forall k | 0 <= k < |s| :: s[k] == 0
    ensures Sum(s) >= 0
  {
    if s != [] {
      NonePositive(s[1..]);
      if Positive(s) == 0 { forall k | 0 <= k < |s| ensures s[k] == 0 { if k > 0 { assert s[k] == s[1..][k - 1]; } } }
      if forall k | 0 <= k < |s| :: s[k] == 0 { assert s[0] == 0; }
    }
  }

  lemma {:induction false} SumAppend(a: seq<int>, b: seq<int>)
    ensures Sum(a + b) == Sum(a) + Sum(b)
    decreases |a|
  {
    if a == [] {
      assert a + b == b;
    } else {
      assert (a + b)[1..] == a[1..] + b;
      SumAppend(a[1..], b);
    }
  }

  lemma {:induction false} SumMonotone(a: seq<int>, b: seq<int>)
    requires |a| == |b| && forall k | 0 <= k < |a| :: a[k] <= b[k]
    ensures Sum(a) <= Sum(b)
  {
    if a != [] { SumMonotone(a[1..], b[1..]); }
  }

  // ---------- One turn of the loop ----------

  // The remaining times, the clock, the processes not finished, and the process at hand.
  datatype State = State(temp: seq<int>, total: int, x: int, i: nat)

  function Ran(temp: seq<int>, total: int, i: nat, q: int): (seq<int>, int)
    requires i < |temp|
  {
    if 0 < temp[i] <= q then (temp[i := 0], total + temp[i])
    else if temp[i] > 0 then (temp[i := temp[i] - q], total + q)
    else (temp, total)
  }

  function Following(arrival: seq<int>, i: nat, total: int): (j: nat)
    requires i < |arrival|
    ensures j < |arrival|
  {
    if i == |arrival| - 1 then 0 else if arrival[i + 1] <= total then i + 1 else 0
  }

  function Turn(arrival: seq<int>, q: int, s: State): State
    requires s.i < |s.temp| == |arrival|
  {
    var (temp, total) := Ran(s.temp, s.total, s.i, q);
    State(temp, total, if s.temp[s.i] > 0 && temp[s.i] == 0 then s.x - 1 else s.x, Following(arrival, s.i, total))
  }

  // The processes are entered with positive burst times and a positive quantum.
  predicate Input(arrival: seq<int>, burst: seq<int>, q: int) {
    0 < |burst| == |arrival| && q > 0 && forall k | 0 <= k < |burst| :: burst[k] > 0
  }

  function Start(burst: seq<int>): State { State(burst, 0, |burst|, 0) }

  // What every turn keeps: work done and work left add up to the work there is.
  ghost predicate Conserved(burst: seq<int>, s: State) {
    && |s.temp| == |burst| && s.i < |burst| && (forall k | 0 <= k < |burst| :: 0 <= s.temp[k] <= burst[k])
    && s.total + Sum(s.temp) == Sum(burst) && s.x == Positive(s.temp)
  }

  lemma StartConserved(arrival: seq<int>, burst: seq<int>, q: int)
    requires Input(arrival, burst, q)
    ensures Conserved(burst, Start(burst))
  {
    AllPositive(burst);
  }

  lemma {:induction false} AllPositive(s: seq<int>)
    requires forall k | 0 <= k < |s| :: s[k] > 0
    ensures Positive(s) == |s|
  {
    if s != [] { AllPositive(s[1..]); }
  }

  /** total + remaining work = total burst, at every turn and for arbitrary arrivals. */
  lemma TurnConserves(arrival: seq<int>, burst: seq<int>, q: int, s: State)
    requires Input(arrival, burst, q) && Conserved(burst, s)
    ensures Conserved(burst, Turn(arrival, q, s))
  {
    if s.temp[s.i] > 0 {
      UpdateSums(s.temp, s.i, if s.temp[s.i] <= q then 0 else s.temp[s.i] - q);
    }
  }

  // ---------- Termination, exactly ----------

  // Every process has arrived when those before it are finished.
  predicate NoGap(arrival: seq<int>, burst: seq<int>)
    requires |arrival| == |burst|
  {
    forall k | 1 <= k < |burst| :: arrival[k] <= WorkBefore(burst, k)
  }

  function WorkBefore(burst: seq<int>, k: nat): int
    requires k <= |burst|
  {
    Sum(burst[..k])
  }

  // With the first n processes finished, the clock has got that far.
  lemma ClockReaches(burst: seq<int>, s: State, n: nat)
    requires Conserved(burst, s) && n <= |burst| && forall k | 0 <= k < n :: s.temp[k] == 0
    ensures s.total >= WorkBefore(burst, n)
  {
    assert burst == burst[..n] + burst[n..] && s.temp == s.temp[..n] + s.temp[n..];
    SumAppend(burst[..n], burst[n..]);
    SumAppend(s.temp[..n], s.temp[n..]);
    SumMonotone(s.temp[n..], burst[n..]);
    ZeroSum(s.temp[..n]);
  }

  lemma {:induction false} ZeroSum(s: seq<int>)
    requires forall k | 0 <= k < |s| :: s[k] == 0
    ensures Sum(s) == 0
  {
    if s != [] { ZeroSum(s[1..]); }
  }

  // Process m + 1 arrives only after all processes before it would be finished: it is never reached.
  ghost predicate Stuck(arrival: seq<int>, burst: seq<int>, s: State, m: nat) {
    && m + 1 < |burst| == |arrival| && arrival[m + 1] > WorkBefore(burst, m + 1)
    && Conserved(burst, s) && s.i <= m && forall k | m < k < |burst| :: s.temp[k] == burst[k]
  }

  lemma StuckStays(arrival: seq<int>, burst: seq<int>, q: int, s: State, m: nat)
    requires Input(arrival, burst, q) && Stuck(arrival, burst, s, m)
    ensures s.x != 0 && Stuck(arrival, burst, Turn(arrival, q, s), m)
  {
    TurnConserves(arrival, burst, q, s);
    var t := Turn(arrival, q, s);
    NonePositive(s.temp);
    assert s.temp[m + 1] > 0;
    NotBeyond(burst, t, m + 1);
  }

  lemma NotBeyond(burst: seq<int>, s: State, n: nat)
    requires Conserved(burst, s) && n <= |burst| && forall k | n <= k < |burst| :: s.temp[k] == burst[k]
    ensures s.total <= WorkBefore(burst, n)
  {
    assert burst == burst[..n] + burst[n..] && s.temp == s.temp[..n] + s.temp[n..];
    SumAppend(burst[..n], burst[n..]);
    SumAppend(s.temp[..n], s.temp[n..]);
    assert s.temp[n..] == burst[n..];
    NonePositive(s.temp[..n]);
  }

  ghost function After(arrival: seq<int>, burst: seq<int>, q: int, n: nat): (s: State)
    requires Input(arrival, burst, q)
    ensures |s.temp| == |burst| && s.i < |burst|
    decreases n
  {
    if n == 0 then Start(burst) else Turn(arrival, q, After(arrival, burst, q, n - 1))
  }

  /** Nobody but the first process is served before it has arrived. */
  lemma {:induction false} NobodyEarly(arrival: seq<int>, burst: seq<int>, q: int, n: nat, p: nat)
    requires Input(arrival, burst, q) && 1 <= p < |burst|
    ensures var s := After(arrival, burst, q, n);
            s.temp[p] < burst[p] || s.i == p ==> arrival[p] <= s.total
    decreases n
  {
    if n > 0 {
      var s := After(arrival, burst, q, n - 1);
      NobodyEarly(arrival, burst, q, n - 1, p);
      AfterConserved(arrival, burst, q, n - 1);
    }
  }

  lemma {:induction false} AfterConserved(arrival: seq<int>, burst: seq<int>, q: int, n: nat)
    requires Input(arrival, burst, q)
    ensures Conserved(burst, After(arrival, burst, q, n))
    decreases n
  {
    if n == 0 {
      StartConserved(arrival, burst, q);
    } else {
      AfterConserved(arrival, burst, q, n - 1);
      TurnConserves(arrival, burst, q, After(arrival, burst, q, n - 1));
    }
  }

  /** With a gap in the arrivals, the loop never ends. */
  lemma {:induction false} GapNeverEnds(arrival: seq<int>, burst: seq<int>, q: int, n: nat)
    requires Input(arrival, burst, q) && !NoGap(arrival, burst)
    ensures After(arrival, burst, q, n).x != 0
  {
    var k :| 1 <= k < |burst| && arrival[k] > WorkBefore(burst, k);
    var m := k - 1;
    StuckAfter(arrival, burst, q, m, n);
    StuckStays(arrival, burst, q, After(arrival, burst, q, n), m);
  }

  lemma {:induction false} StuckAfter(arrival: seq<int>, burst: seq<int>, q: int, m: nat, n: nat)
    requires Input(arrival, burst, q) && m < |burst| - 1 && arrival[m + 1] > WorkBefore(burst, m + 1)
    ensures Stuck(arrival, burst, After(arrival, burst, q, n), m)
    decreases n
  {
    if n == 0 {
      StartConserved(arrival, burst, q);
    } else {
      StuckAfter(arrival, burst, q, m, n - 1);
      StuckStays(arrival, burst, q, After(arrival, burst, q, n - 1), m);
    }
  }

  // Since the last start over, either work was done or the processes passed were finished.
  ghost predicate Fresh(s: State, passStart: int)
    requires s.i <= |s.temp|
  {
    Sum(s.temp) <= passStart && (Sum(s.temp) == passStart ==> forall k: nat | k < s.i :: s.temp[k] == 0)
  }

  // Without a gap, the scan does not start over before it has done some work.
  lemma TurnProgresses(arrival: seq<int>, burst: seq<int>, q: int, s: State, passStart: int)
    requires Input(arrival, burst, q) && NoGap(arrival, burst) && Conserved(burst, s) && s.x != 0 && Fresh(s, passStart)
    ensures var t := Turn(arrival, q, s);
            Conserved(burst, t) && (if t.i == 0 then Sum(t.temp) < passStart else t.i == s.i + 1 && Fresh(t, passStart))
  {
    var t := Turn(arrival, q, s);
    TurnConserves(arrival, burst, q, s);
    ArrivedByThen(arrival, burst, s.i + 1);
    if s.temp[s.i] > 0 {
      UpdateSums(s.temp, s.i, if s.temp[s.i] <= q then 0 else s.temp[s.i] - q);
    } else if Sum(t.temp) == passStart && t.i == 0 {
      NonePositive(s.temp);
      ClockReaches(burst, s, s.i + 1);
    }
  }

  lemma ArrivedByThen(arrival: seq<int>, burst: seq<int>, k: nat)
    requires |arrival| == |burst| && NoGap(arrival, burst)
    ensures 1 <= k < |burst| ==> arrival[k] <= WorkBefore(burst, k)
  {
  }

  // ---------- Completion times when all have arrived ----------

  // The time a process has had after n rounds.
  function Served(b: int, n: int, q: int): int { if b <= n * q then b else n * q }

  function RoundsOf(b: int, q: int): int
    requires q > 0
  {
    (b + q - 1) / q
  }

  // In round r (from 0 on), the processes before i have had their turn.
  ghost predicate InRound(burst: seq<int>, q: int, temp: seq<int>, i: nat, r: nat) {
    && |temp| == |burst|
    && forall k | 0 <= k < |burst| :: temp[k] == burst[k] - Served(burst[k], if k < i then r + 1 else r, q)
  }

  // Time given to all processes when those before i have had n turns and the others n - 1.
  function GivenUpTo(burst: seq<int>, i: nat, n: int, q: int): (given: seq<int>)
    ensures |given| == |burst|
  {
    seq(|burst|, k requires 0 <= k < |burst| => Served(burst[k], if k < i then n else n - 1, q))
  }

  // The completion time of process p: in its last round, processes up to p have had that round, the
  // others one round less.
  function Completion(burst: seq<int>, p: nat, q: int): int
    requires p < |burst| && q > 0
  {
    Sum(GivenUpTo(burst, p + 1, RoundsOf(burst[p], q), q))
  }

  lemma LastRound(b: int, q: int, r: nat)
    requires q > 0 && r * q < b <= (r + 1) * q
    ensures RoundsOf(b, q) == r + 1
  {
    var a := b + q - 1;
    var e := a / q - (r + 1);
    assert a == q * (a / q) + a % q;
    assert q * e == q * (a / q) - q * (r + 1);
    assert q * (r + 1) == q * r + q && r * q == q * r && (r + 1) * q == q * (r + 1);
    SmallMultiple(q, e);
  }

  lemma {:induction false} SumDifference(a: seq<int>, b: seq<int>, c: seq<int>)
    requires |a| == |b| == |c| && forall k | 0 <= k < |a| :: c[k] == a[k] - b[k]
    ensures Sum(c) == Sum(a) - Sum(b)
  {
    if a != [] { SumDifference(a[1..], b[1..], c[1..]); }
  }

  lemma ServedMore(b: int, r: nat, q: int)
    requires q > 0 && b > 0
    ensures var left := b - Served(b, r, q);
            Served(b, r + 1, q) == Served(b, r, q) + (if left <= q then left else q)
    ensures b - Served(b, r, q) > 0 <==> r * q < b
  {
    assert (r + 1) * q == r * q + q;
  }

  // A turn of process i in round r; if it finishes, this is its completion time.
  lemma RoundTurn(arrival: seq<int>, burst: seq<int>, q: int, s: State, r: nat)
    requires Input(arrival, burst, q) && Conserved(burst, s) && InRound(burst, q, s.temp, s.i, r)
    ensures var t := Turn(arrival, q, s);
            InRound(burst, q, t.temp, s.i + 1, r)
            && (s.temp[s.i] > 0 && t.temp[s.i] == 0 ==> t.total == Completion(burst, s.i, q))
  {
    var t, i := Turn(arrival, q, s), s.i;
    ServedMore(burst[i], r, q);
    TurnConserves(arrival, burst, q, s);
    if s.temp[i] > 0 && t.temp[i] == 0 {
      assert (r + 1) * q == r * q + q;
      LastRound(burst[i], q, r);
      SumDifference(burst, GivenUpTo(burst, i + 1, r + 1, q), t.temp);
    }
  }

  lemma NextRound(burst: seq<int>, q: int, temp: seq<int>, r: nat)
    requires InRound(burst, q, temp, |burst|, r)
    ensures InRound(burst, q, temp, 0, r + 1)
  {
  }

  // ---------- The program ----------

  datatype Line = Line(process: nat, burst: int, turnaround: int, wait: int)

  predicate NoneLate(arrival: seq<int>) { forall k | 0 <= k < |arrival| :: arrival[k] == 0 }

  predicate Listed(report: seq<Line>, p: nat) { exists j :: 0 <= j < |report| && report[j].process == p }

  // One line for each finished process, none twice.
  ghost predicate Reported(report: seq<Line>, temp: seq<int>) {
    && (forall j | 0 <= j < |report| :: report[j].process < |temp| && temp[report[j].process] == 0)
    && (forall j, l | 0 <= j < l < |report| :: report[j].process != report[l].process)
    && (forall p: nat | p < |temp| && temp[p] == 0 :: Listed(report, p))
  }

  // The time each process has had.
  function Had(burst: seq<int>, temp: seq<int>): (had: seq<int>)
    requires |temp| == |burst|
    ensures |had| == |burst| && forall k | 0 <= k < |burst| :: had[k] == burst[k] - temp[k]
  {
    seq(|burst|, k requires 0 <= k < |burst| => burst[k] - temp[k])
  }

  // Turn n is the last one of process p; the clock then shows the time all processes have had by then.
  ghost predicate LastTurn(arrival: seq<int>, burst: seq<int>, q: int, p: nat, n: nat, clock: int)
    requires Input(arrival, burst, q) && p < |burst|
  {
    var (s, t) := (After(arrival, burst, q, n), After(arrival, burst, q, n + 1));
    s.temp[p] > 0 && t.temp[p] == 0 && t.total == clock == Sum(Had(burst, t.temp))
  }

  ghost predicate FinishesAt(arrival: seq<int>, burst: seq<int>, q: int, p: nat, clock: int)
    requires Input(arrival, burst, q) && p < |burst|
  {
    exists n: nat :: LastTurn(arrival, burst, q, p, n, clock)
  }

  ghost predicate LineRight(line: Line, arrival: seq<int>, burst: seq<int>, q: int)
    requires Input(arrival, burst, q)
  {
    && line.process < |burst| && line.burst == burst[line.process] && line.wait == line.turnaround - line.burst
    && FinishesAt(arrival, burst, q, line.process, line.turnaround + arrival[line.process])
    && (NoneLate(arrival) ==> line.turnaround == Completion(burst, line.process, q))
  }

  function Turnarounds(report: seq<Line>): int {
    if report == [] then 0 else report[0].turnaround + Turnarounds(report[1..])
  }

  function Waits(report: seq<Line>): int { if report == [] then 0 else report[0].wait + Waits(report[1..]) }

  lemma {:induction false} AddLine(report: seq<Line>, line: Line)
    ensures Turnarounds(report + [line]) == Turnarounds(report) + line.turnaround
    ensures Waits(report + [line]) == Waits(report) + line.wait
    decreases |report|
  {
    if report == [] {
      assert [] + [line] == [line] && [line][1..] == [];
    } else {
      assert (report + [line])[1..] == report[1..] + [line];
      AddLine(report[1..], line);
    }
  }

  lemma StateIs(burst: seq<int>, s: State)
    requires Conserved(burst, s)
    ensures |s.temp| == |burst| && s.i < |burst| && s.temp[s.i] >= 0
    ensures s.x == 0 ==> forall k | 0 <= k < |burst| :: s.temp[k] == 0
  {
    NonePositive(s.temp);
  }

  predicate Finishes(s: State, t: State) { s.i < |s.temp| == |t.temp| && s.temp[s.i] > 0 && t.temp[s.i] == 0 }

  // A process that finishes is reported; otherwise nothing is.
  lemma ReportTurn(arrival: seq<int>, burst: seq<int>, q: int, s: State, report: seq<Line>, line: Line)
    requires Input(arrival, burst, q) && Conserved(burst, s) && Reported(report, s.temp) && line.process == s.i
    ensures var t := Turn(arrival, q, s);
            Reported(if Finishes(s, t) then report + [line] else report, t.temp)
  {
    hide Turn, Ran, Sum, Positive, Reported;
    var t := Turn(arrival, q, s);
    TurnTouches(arrival, burst, q, s);
    if Finishes(s, t) {
      ReportMore(report, line, s.temp, t.temp);
    } else {
      ReportSame(report, s.temp, t.temp);
    }
  }

  lemma ReportSame(report: seq<Line>, temp: seq<int>, temp': seq<int>)
    requires Reported(report, temp) && |temp'| == |temp| && forall k | 0 <= k < |temp| :: temp'[k] == 0 <==>
               temp[k] == 0
    ensures Reported(report, temp')
  {
    hide Listed;
  }

  lemma ReportMore(report: seq<Line>, line: Line, temp: seq<int>, temp': seq<int>)
    requires Reported(report, temp) && |temp'| == |temp| && line.process < |temp|
    requires temp[line.process] != 0 && temp'[line.process] == 0
    requires forall k | 0 <= k < |temp| && k != line.process :: temp'[k] == temp[k]
    ensures Reported(report + [line], temp')
  {
    hide Listed;
    JustListed(report, line);
    forall p: nat | p < |temp| && temp[p] == 0 ensures Listed(report + [line], p) { ListedMore(report, line, p); }
  }

  lemma TurnTouches(arrival: seq<int>, burst: seq<int>, q: int, s: State)
    requires Input(arrival, burst, q) && Conserved(burst, s)
    ensures var t := Turn(arrival, q, s);
            && |t.temp| == |s.temp| && (forall k | 0 <= k < |s.temp| && k != s.i :: t.temp[k] == s.temp[k])
            && (t.temp[s.i] == 0 ==> s.temp[s.i] == 0 || Finishes(s, t)) && (s.temp[s.i] == 0 ==> t.temp[s.i] == 0)
  {
  }

  lemma JustListed(report: seq<Line>, line: Line)
    ensures Listed(report + [line], line.process)
  {
    assert (report + [line])[|report|].process == line.process;
  }

  lemma ListedMore(report: seq<Line>, line: Line, p: nat)
    requires Listed(report, p)
    ensures Listed(report + [line], p)
  {
    var j :| 0 <= j < |report| && report[j].process == p;
    assert (report + [line])[j].process == p;
  }

  // On to the next process, in the same round or the next.
  lemma RoundGoesOn(arrival: seq<int>, burst: seq<int>, q: int, s: State, r: nat)
    requires Input(arrival, burst, q) && Conserved(burst, s) && InRound(burst, q, s.temp, s.i, r) && NoneLate(arrival)
    ensures var t := Turn(arrival, q, s); InRound(burst, q, t.temp, t.i, if t.i == 0 then r + 1 else r)
  {
    hide InRound;
    var t := Turn(arrival, q, s);
    RoundTurn(arrival, burst, q, s, r);
    TurnConserves(arrival, burst, q, s);
    TotalNotNegative(burst, t);
    if s.i == |burst| - 1 { NextRound(burst, q, t.temp, r); }
  }

  lemma TotalNotNegative(burst: seq<int>, s: State)
    requires Conserved(burst, s)
    ensures s.total >= 0
  {
    SumMonotone(s.temp, burst);
  }

  lemma LineIsRight(line: Line, arrival: seq<int>, burst: seq<int>, q: int, s: State, n: nat, r: nat)
    requires Input(arrival, burst, q) && Conserved(burst, s) && Finishes(s, Turn(arrival, q, s))
    requires s == After(arrival, burst, q, n)
    requires NoneLate(arrival) ==> InRound(burst, q, s.temp, s.i, r)
    requires var total := Turn(arrival, q, s).total;
             line == Line(s.i, burst[s.i], total - arrival[s.i], total - arrival[s.i] - burst[s.i])
    ensures LineRight(line, arrival, burst, q)
  {
    var t := Turn(arrival, q, s);
    TurnConserves(arrival, burst, q, s);
    SumDifference(burst, t.temp, Had(burst, t.temp));
    assert LastTurn(arrival, burst, q, s.i, n, t.total);
    if NoneLate(arrival) { RoundTurn(arrival, burst, q, s, r); }
  }

  // The process at hand runs for a quantum or until it is finished.
  method RunProcess(temp: array<int>, i: nat, q: int, total: int) returns (clock: int, counter: int)
    requires i < temp.Length && q > 0
    modifies temp
    ensures (temp[..], clock) == Ran(old(temp[..]), total, i, q)
    ensures counter == if old(temp[i]) > 0 && temp[i] == 0 then 1 else 0
  {
    clock, counter := total, 0;
    if temp[i] <= q && temp[i] > 0 {
      clock := clock + temp[i];
      temp[i] := 0;
      counter := 1;
    } else if temp[i] > 0 {
      temp[i] := temp[i] - q;
      clock := clock + q;
    }
  }

  // What holds whenever the loop comes round.
  ghost predicate Running(arrival: seq<int>, burst: seq<int>, q: int, s: State, n: nat, passStart: int, r: nat,
                          report: seq<Line>, waitTime: int, turnaroundTime: int)
    requires Input(arrival, burst, q)
  {
    && s == After(arrival, burst, q, n) && Conserved(burst, s) && Fresh(s, passStart)
    && (NoneLate(arrival) ==> InRound(burst, q, s.temp, s.i, r))
    && Reported(report, s.temp) && |report| == |burst| - s.x
    && (forall j | 0 <= j < |report| :: LineRight(report[j], arrival, burst, q))
    && waitTime == Waits(report) && turnaroundTime == Turnarounds(report)
  }

  lemma Beginning(arrival: seq<int>, burst: seq<int>, q: int)
    requires Input(arrival, burst, q)
    ensures Running(arrival, burst, q, Start(burst), 0, Sum(burst), 0, [], 0, 0)
  {
    StartConserved(arrival, burst, q);
  }

  function LineFor(arrival: seq<int>, burst: seq<int>, i: nat, total: int): Line
    requires i < |arrival| == |burst|
  {
    Line(i, burst[i], total - arrival[i], total - arrival[i] - burst[i])
  }

  lemma TurnKeeps(arrival: seq<int>, burst: seq<int>, q: int, s: State, n: nat, passStart: int, r: nat,
                  report: seq<Line>, waitTime: int, turnaroundTime: int)
    requires Input(arrival, burst, q) && NoGap(arrival, burst) && s.x != 0
    requires Running(arrival, burst, q, s, n, passStart, r, report, waitTime, turnaroundTime)
    ensures s.i < |s.temp| == |burst| && Turn(arrival, q, s).i < |burst|
    ensures var t := Turn(arrival, q, s);
            var (fin, line) := (Finishes(s, t), LineFor(arrival, burst, s.i, t.total));
            && Running(arrival, burst, q, t, n + 1, if t.i == 0 then Sum(t.temp) else passStart,
                       if t.i == 0 then r + 1 else r,
                       if fin then report + [line] else report, if fin then waitTime + line.wait else waitTime,
                       if fin then turnaroundTime + line.turnaround else turnaroundTime)
            && (if t.i == 0 then 0 <= Sum(t.temp) < passStart else t.i == s.i + 1)
  {
    hide Conserved, Fresh, InRound, Reported, LineRight, LastTurn, Completion, Sum, Positive, NoneLate, Turnarounds,
         Waits;
    StateIs(burst, s);
    TurnProgresses(arrival, burst, q, s, passStart);
    var t := Turn(arrival, q, s);
    WorkLeft(burst, t);
    var line := LineFor(arrival, burst, s.i, t.total);
    if NoneLate(arrival) { RoundGoesOn(arrival, burst, q, s, r); }
    ReportTurn(arrival, burst, q, s, report, line);
    AddLine(report, line);
    if Finishes(s, t) { LineIsRight(line, arrival, burst, q, s, n, r); }
    if t.i == 0 { FreshStart(t); }
  }

  /** The scheduling loop. It ends if no process arrives after all those before it are finished; it
      reports every process once, with the time from its arrival to the turn in which it finished; if all
      arrive at 0, this is the completion time in closed form. */
  method Schedule(arrival: seq<int>, burst: seq<int>, q: int)
    returns (report: seq<Line>, waitTime: int, turnaroundTime: int)
    requires Input(arrival, burst, q) && NoGap(arrival, burst)
    ensures |report| == |burst| && forall p: nat | p < |burst| :: Listed(report, p)
    ensures forall j, l | 0 <= j < l < |report| :: report[j].process != report[l].process
    ensures forall j | 0 <= j < |report| :: LineRight(report[j], arrival, burst, q)
    ensures waitTime == Waits(report) && turnaroundTime == Turnarounds(report)
  {
    hide Running, LineRight, Waits, Turnarounds, Listed, Sum, Turn, Finishes, NoGap;
    var limit := |burst|;
    var temp := new int[limit](k requires 0 <= k < limit => burst[k]);
    var x, total, i: nat := limit, 0, 0;
    report, waitTime, turnaroundTime := [], 0, 0;
    assert temp[..] == burst;
    ghost var s, n: nat, passStart, r: nat := Start(burst), 0, Sum(burst), 0;
    Beginning(arrival, burst, q);
    while x != 0
      invariant s == State(temp[..], total, x, i) && i < limit
      invariant Running(arrival, burst, q, s, n, passStart, r, report, waitTime, turnaroundTime)
      decreases passStart, limit - i
    {
      TurnKeeps(arrival, burst, q, s, n, passStart, r, report, waitTime, turnaroundTime);
      s, n := Turn(arrival, q, s), n + 1;
      var finished, at := false, i;
      total, x, i, finished := TakeTurn(temp, arrival, q, total, x, i);
      if finished {
        report := report + [Line(at, burst[at], total - arrival[at], total - arrival[at] - burst[at])];
        waitTime := waitTime + total - arrival[at] - burst[at];
        turnaroundTime := turnaroundTime + total - arrival[at];
      }
      if i == 0 { passStart, r := Sum(s.temp), r + 1; }
    }
    AllReported(arrival, burst, q, s, n, passStart, r, report, waitTime, turnaroundTime);
  }

  // One turn: the process at hand runs, and the next one is picked.
  method TakeTurn(temp: array<int>, arrival: seq<int>, q: int, total: int, x: int, i: nat)
    returns (total': int, x': int, i': nat, finished: bool)
    requires i < temp.Length == |arrival| && q > 0
    modifies temp
    ensures var (s, t) := (State(old(temp[..]), total, x, i), State(temp[..], total', x', i'));
            t == Turn(arrival, q, s) && finished == Finishes(s, t)
  {
    var counter;
    total', counter := RunProcess(temp, i, q, total);
    x', i', finished := x, 0, temp[i] == 0 && counter == 1;
    if finished { x' := x - 1; }
    if i == temp.Length - 1 {
      i' := 0;
    } else if arrival[i + 1] <= total' {
      i' := i + 1;
    } else {
      i' := 0;
    }
  }

  lemma AllReported(arrival: seq<int>, burst: seq<int>, q: int, s: State, n: nat, passStart: int, r: nat,
                    report: seq<Line>, waitTime: int, turnaroundTime: int)
    requires Input(arrival, burst, q)
    requires Running(arrival, burst, q, s, n, passStart, r, report, waitTime, turnaroundTime)
    requires s.x == 0
    ensures |report| == |burst| && forall p: nat | p < |burst| :: Listed(report, p)
    ensures forall j, l | 0 <= j < l < |report| :: report[j].process != report[l].process
    ensures forall j | 0 <= j < |report| :: LineRight(report[j], arrival, burst, q)
    ensures waitTime == Waits(report) && turnaroundTime == Turnarounds(report)
  {
    hide Conserved, Listed;
    StateIs(burst, s);
  }

  lemma FreshStart(s: State)
    requires s.i == 0
    ensures Fresh(s, Sum(s.temp))
  {
  }

  lemma WorkLeft(burst: seq<int>, s: State)
    requires Conserved(burst, s)
    ensures Sum(s.temp) >= 0
  {
    NonePositive(s.temp);
  }
}
