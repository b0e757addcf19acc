/** Line addresses of a sed command: one bit per command decides which lines a range selects. */
module SedRange {

  datatype Addr = Null | Num(n: int) | Regex(id: nat) | Last

  // A line as addresses see it: its number, whether it is the last one, and which regular expressions
  // match the pattern space.
  datatype Line = Line(number: int, last: bool, matching: set<nat>)

  // match_address.
  predicate Matches(addr: Addr, line: Line) {
    match addr
    case Null => true
    case Num(n) => line.number == n
    case Regex(id) => id in line.matching
    case Last => line.last
  }

  // ---------- The lines selected, declaratively ----------

  // The first line from `from` on that matches, or the number of lines.
  function FirstMatch(addr: Addr, lines: seq<Line>, from: nat): (k: nat)
    requires from <= |lines|
    ensures from <= k <= |lines| && (k < |lines| ==> Matches(addr, lines[k]))
    ensures forall j | from <= j < k :: !Matches(addr, lines[j])
    decreases |lines| - from
  {
    if from == |lines| || Matches(addr, lines[from]) then from else FirstMatch(addr, lines, from + 1)
  }

  // The last line of a range that starts at s: a regular expression is looked for after that line, a
  // number or `$` from that line on; a range that is not ended takes in everything.
  function EndOf(a2: Addr, lines: seq<Line>, s: nat): (e: nat)
    requires s < |lines|
    ensures s <= e <= |lines|
  {
    if a2.Null? then s else FirstMatch(a2, lines, if a2.Regex? then s + 1 else s)
  }

  // Line k lies in one of the ranges found from line `from` on, each from the next line that matches
  // the first address to its end.
  predicate InRange(a1: Addr, a2: Addr, lines: seq<Line>, from: nat, k: nat)
    requires from <= |lines|
    decreases |lines| - from, 1
  {
    InRangeOf(a1, a2, lines, FirstMatch(a1, lines, from), k)
  }

  // Line k lies in the range that starts at s or in a later one.
  predicate InRangeOf(a1: Addr, a2: Addr, lines: seq<Line>, s: nat, k: nat)
    requires s <= |lines|
    decreases |lines| - s, 0
  {
    s < |lines|
    && (var e := EndOf(a2, lines, s);
        s <= k <= e || (e < |lines| && InRange(a1, a2, lines, e + 1, k)))
  }

  // ---------- The bit ----------

  // Whether the line is selected (before `!`), and the bit afterwards.
  function Step(a1: Addr, a2: Addr, bit: bool, line: Line): (bool, bool) {
    if bit then (true, !Matches(a2, line))
    else if !Matches(a1, line) then (false, false)
    else (true, !a2.Null? && (a2.Regex? || !Matches(a2, line)))
  }

  predicate SelectedFrom(a1: Addr, a2: Addr, lines: seq<Line>, i: nat, bit: bool, k: nat)
    requires i <= k < |lines|
    decreases k - i
  {
    var (sel, bit') := Step(a1, a2, bit, lines[i]);
    if i == k then sel else SelectedFrom(a1, a2, lines, i + 1, bit', k)
  }

  // What is selected from line i on: with the bit set, a range is open up to the next match of the
  // second address.
  predicate Expected(a1: Addr, a2: Addr, lines: seq<Line>, i: nat, bit: bool, k: nat)
    requires i <= |lines|
  {
    if !bit then InRange(a1, a2, lines, i, k)
    else
      var e := FirstMatch(a2, lines, i);
      i <= k <= e || (e < |lines| && InRange(a1, a2, lines, e + 1, k))
  }

  lemma {:induction false} NotBefore(a1: Addr, a2: Addr, lines: seq<Line>, from: nat, k: nat)
    requires from <= |lines| && InRange(a1, a2, lines, from, k)
    ensures from <= k
    decreases |lines| - from
  {
    var s := FirstMatch(a1, lines, from);
    var e := EndOf(a2, lines, s);
    if !(s <= k <= e) { NotBefore(a1, a2, lines, e + 1, k); }
  }

  lemma FirstMatchStep(addr: Addr, lines: seq<Line>, i: nat)
    requires i < |lines|
    ensures FirstMatch(addr, lines, i) == if Matches(addr, lines[i]) then i else FirstMatch(addr, lines, i + 1)
  {
  }

  lemma NoneBefore(a1: Addr, a2: Addr, lines: seq<Line>, from: nat, k: nat)
    requires k < from <= |lines|
    ensures !InRange(a1, a2, lines, from, k)
  {
    if InRange(a1, a2, lines, from, k) { NotBefore(a1, a2, lines, from, k); }
  }

  // At a line where no range starts.
  lemma PassedStep(a1: Addr, a2: Addr, lines: seq<Line>, i: nat, k: nat)
    requires i < |lines| && i <= k && !Matches(a1, lines[i])
    ensures InRange(a1, a2, lines, i, k) <==> k > i && InRange(a1, a2, lines, i + 1, k)
  {
    hide InRangeOf, FirstMatch;
    FirstMatchStep(a1, lines, i);
    if k == i { NoneBefore(a1, a2, lines, i + 1, k); }
  }

  // At a line where a range starts.
  lemma StartedStep(a1: Addr, a2: Addr, lines: seq<Line>, i: nat, k: nat)
    requires i < |lines| && i <= k && Matches(a1, lines[i])
    ensures var e := EndOf(a2, lines, i);
            InRange(a1, a2, lines, i, k) <==> k <= e || (e < |lines| && InRange(a1, a2, lines, e + 1, k))
  {
    FirstMatchStep(a1, lines, i);
  }

  // One line: it is selected by the step, the others by the state after the step.
  lemma ExpectedStep(a1: Addr, a2: Addr, lines: seq<Line>, i: nat, bit: bool, k: nat)
    requires i < |lines| && i <= k && (bit ==> !a2.Null?)
    ensures var (sel, bit') := Step(a1, a2, bit, lines[i]);
            (bit' ==> !a2.Null?)
            && (Expected(a1, a2, lines, i, bit, k) <==> if k == i then sel else Expected(a1, a2, lines, i + 1, bit', k))
  {
    hide InRange, FirstMatch;
    FirstMatchStep(a2, lines, i);
    if !bit && !Matches(a1, lines[i]) {
      PassedStep(a1, a2, lines, i, k);
    } else if !bit {
      StartedStep(a1, a2, lines, i, k);
    }
  }

  lemma {:induction false} BitIsRange(a1: Addr, a2: Addr, lines: seq<Line>, i: nat, bit: bool, k: nat)
    requires i <= k < |lines| && (bit ==> !a2.Null?)
    ensures SelectedFrom(a1, a2, lines, i, bit, k) <==> Expected(a1, a2, lines, i, bit, k)
    decreases k - i
  {
    hide Expected, Step;
    ExpectedStep(a1, a2, lines, i, bit, k);
    if i < k { BitIsRange(a1, a2, lines, i + 1, Step(a1, a2, bit, lines[i]).1, k); }
  }

  ghost predicate NumberedFrom1(lines: seq<Line>) { forall j | 0 <= j < |lines| :: lines[j].number == j + 1 }

  // With two numbers 1 <= m <= n, the range is lines m to n.
  lemma NumberedRange(m: int, n: int, lines: seq<Line>, k: nat)
    requires 1 <= m <= n && k < |lines| && NumberedFrom1(lines)
    ensures InRange(Num(m), Num(n), lines, 0, k) <==> m <= lines[k].number <= n
  {
    var s := FirstMatch(Num(m), lines, 0);
    if m <= |lines| {
      assert lines[m - 1].number == m;
      assert s == m - 1;
      var e := FirstMatch(Num(n), lines, s);
      assert e == EndOf(Num(n), lines, s);
      assert InRange(Num(m), Num(n), lines, 0, k) <==> InRangeOf(Num(m), Num(n), lines, s, k);
      if n <= |lines| {
        assert lines[n - 1].number == n;
        assert e == n - 1;
        assert FirstMatch(Num(m), lines, e + 1) == |lines|;
        assert !InRange(Num(m), Num(n), lines, e + 1, k);
      }
    }
  }

  /** Without a second address, a command takes the lines its address is about: all of them, the one with the
      number, the last one, or those the regular expression matches. */
  lemma {:induction false} OneAddress(a1: Addr, lines: seq<Line>, from: nat, k: nat)
    requires from <= k < |lines|
    ensures InRange(a1, Null, lines, from, k) <==>
            match a1
            case Null => true
            case Num(n) => lines[k].number == n
            case Regex(id) => id in lines[k].matching
            case Last => lines[k].last
    decreases k - from
  {
    FirstMatchStep(a1, lines, from);
    if Matches(a1, lines[from]) {
      StartedStep(a1, Null, lines, from, k);
      if k > from { OneAddress(a1, lines, from + 1, k); }
    } else {
      PassedStep(a1, Null, lines, from, k);
      if k > from { OneAddress(a1, lines, from + 1, k); }
    }
  }

  /** A range that starts at line s and is closed at line e: by a regular expression, the first line after s that
      it matches; by a number or `$`, line s itself if it is that one, otherwise the first such line after it. The
      next range is looked for behind e. */
  lemma RangeCloses(a1: Addr, a2: Addr, lines: seq<Line>, from: nat, s: nat, e: nat, k: nat)
    requires from <= s <= e < |lines| && from <= k < |lines|
    requires Matches(a1, lines[s]) && forall j | from <= j < s :: !Matches(a1, lines[j])
    requires match a2
             case Null => e == s
             case Regex(id) => s < e && id in lines[e].matching && forall j | s < j < e :: id !in lines[j].matching
             case Num(n) => lines[e].number == n && forall j | s <= j < e :: lines[j].number != n
             case Last => lines[e].last && forall j | s <= j < e :: !lines[j].last
    ensures InRange(a1, a2, lines, from, k) <==> s <= k <= e || (e < k && InRange(a1, a2, lines, e + 1, k))
  {
    assert FirstMatch(a1, lines, from) == s;
    assert EndOf(a2, lines, s) == e;
    if k <= e { NoneBefore(a1, a2, lines, e + 1, k); }
  }

  /** A range that is never closed takes in all lines from s on. */
  lemma RangeStaysOpen(a1: Addr, a2: Addr, lines: seq<Line>, from: nat, s: nat, k: nat)
    requires from <= s < |lines| && from <= k < |lines|
    requires Matches(a1, lines[s]) && forall j | from <= j < s :: !Matches(a1, lines[j])
    requires match a2
             case Null => false
             case Regex(id) => forall j | s < j < |lines| :: id !in lines[j].matching
             case Num(n) => forall j | s <= j < |lines| :: lines[j].number != n
             case Last => forall j | s <= j < |lines| :: !lines[j].last
    ensures InRange(a1, a2, lines, from, k) <==> s <= k
  {
    assert FirstMatch(a1, lines, from) == s;
    assert EndOf(a2, lines, s) == |lines|;
  }

  // There is no line 0.
  lemma NoLineZero(m: int, a2: Addr, lines: seq<Line>, k: nat)
    requires m < 1 && k < |lines| && NumberedFrom1(lines)
    ensures !InRange(Num(m), a2, lines, 0, k)
  {
    assert FirstMatch(Num(m), lines, 0) == |lines|;
  }

  // ---------- The command ----------

  class Command {
    var a1: Addr
    var a2: Addr
    var a1Matched: bool
    const bang: bool

    ghost predicate Valid()
      reads this
    {
      a1Matched ==> !a2.Null?
    }

    // Addresses as compile_program leaves them: a second number below the first is raised to it.
    constructor (first: Addr, second: Addr, not: bool)
      ensures Valid() && !a1Matched && bang == not && a1 == first
      ensures a2 == if first.Num? && second.Num? && second.n < first.n then Num(first.n) else second
    {
      a1, a2, a1Matched, bang := first, second, false, not;
      new;
      if a1.Num? && a2.Num? && a2.n < a1.n { a2 := Num(a1.n); }
    }

    method Addressed(line: Line) returns (matched: bool)
      requires Valid()
      modifies this`a1Matched
      ensures Valid()
      ensures (matched, a1Matched)
              == (Step(a1, a2, old(a1Matched), line).0 != bang, Step(a1, a2, old(a1Matched), line).1)
    {
      matched := false;
      if a1Matched {
        matched := true;
        if Matches(a2, line) { a1Matched := false; }
      } else if Matches(a1, line) {
        matched := true;
        if a2 != Null {
          if a2.Regex? || !Matches(a2, line) { a1Matched := true; }
        }
      }
      if bang { matched := !matched; }
    }

    /** Over all lines of the input: a line is selected exactly when it lies in one of the ranges, or
        with `!` when it does not. */
    method SelectLines(lines: seq<Line>) returns (selected: seq<bool>)
      requires Valid() && !a1Matched
      modifies this`a1Matched
      ensures |selected| == |lines|
      ensures forall k: nat | k < |lines| :: selected[k] <==> InRange(a1, a2, lines, 0, k) != bang
    {
      selected := [];
      for i := 0 to |lines|
        invariant Valid() && |selected| == i
        invariant forall k: nat | k < i :: selected[k] <==> SelectedFrom(a1, a2, lines, 0, false, k) != bang
        invariant forall k: nat | i <= k < |lines| ::
                    SelectedFrom(a1, a2, lines, 0, false, k) <==> SelectedFrom(a1, a2, lines, i, a1Matched, k)
      {
        var matched := Addressed(lines[i]);
        selected := selected + [matched];
      }
      forall k: nat | k < |lines| ensures selected[k] <==> InRange(a1, a2, lines, 0, k) != bang {
        BitIsRange(a1, a2, lines, 0, false, k);
      }
    }
  }

  /** The command `m,n`, compiled and applied to all lines: it selects lines m to n, and line m alone if n is
      below m. */
  method SelectNumbered(m: int, n: int, lines: seq<Line>) returns (selected: seq<bool>)
    requires NumberedFrom1(lines)
    ensures |selected| == |lines|
    ensures forall k: nat | k < |lines| :: selected[k] <==> 1 <= m <= k + 1 <= if n < m then m else n
  {
    hide InRange;
    var command := new Command(Num(m), Num(n), false);
    selected := command.SelectLines(lines);
    forall k: nat | k < |lines| ensures selected[k] <==> 1 <= m <= k + 1 <= if n < m then m else n {
      if m < 1 { NoLineZero(m, command.a2, lines, k); } else { NumberedRange(m, if n < m then m else n, lines, k); }
    }
  }
}
