/**
 What running compiled code amounts to, independently of bytes, stacks and self-modification: the
 ordered list of events met while the matcher backtracks from one starting position, and the value
 re_match_2 makes of that list.
 */
module RegexTrace {
  import opened Bytes
  import opened RegexAst
  import opened RegexCode

  // Reaching the end of the pattern at `end` (`alone`: with an empty failure stack), or being
  // refused room for another failure point.
  datatype Event = Hit(end: nat, alone: bool) | Overflow

  // Five slots, doubled until they exceed re_max_failures * 4 = 8000: room for 10240 items of
  // which each failure point takes four.
  const MAX_POINTS: nat := 2560

  function FirstOp(it: Item): byte {
    match it
    case Term(Exact(_)) => EXACTN
    case Term(One(atom)) => AtomCode(atom)[0]
    case Term(Anchor(spot)) => SpotCode(spot)
    case Term(Rep(_, Star)) => ON_FAILURE_JUMP
    case Term(Rep(_, Plus)) => DUMMY_FAILURE_JUMP
    case Term(Rep(_, Quest)) => ON_FAILURE_JUMP
    case Term(Rep(_, Interval(_, hi))) => if hi == 0 then JUMP else SET_NUMBER_AT
    case Fork(_, _) => ON_FAILURE_JUMP
    case Past(_, _) => JUMP_PAST_ALT
  }

  // An atom under `\{0\}`: compiled as a jump over the atom.
  predicate Skipped(it: Item) { it.Term? && it.piece.Rep? && it.piece.q.Interval? && it.piece.q.hi == 0 }

  // Quantifiers that leave a failure point behind: its continuation is the next item.
  predicate Choice(q: Quant) { q.Interval? ==> q.lo < q.hi }

  // Items a failure point can resume at.
  predicate Landing(items: seq<Item>, i: nat) {
    0 < i <= |items|
    && (items[i - 1].Past? || (items[i - 1].Term? && items[i - 1].piece.Rep? && Choice(items[i - 1].piece.q)))
  }

  // The failure points that the code after `fail:` takes for the backward jump of a loop, and drops:
  // those that resume at a jump whose target is an on_failure_jump.
  predicate Dropped(items: seq<Item>, i: nat) {
    i + 1 < |items| && Skipped(items[i]) && FirstOp(items[i + 1]) == ON_FAILURE_JUMP
  }

  // Forks and Pasts lead where their relative addresses say.
  ghost predicate LinkAt(items: seq<Item>, i: nat)
    requires i < |items|
  {
    match items[i]
    case Fork(span, rel) =>
      && 0 < span && i + span <= |items| && items[i + span - 1].Past? && Off(items, i + span) == Off(items, i) + 3 + rel
    case Past(hop, rel) => 0 < hop && i + hop <= |items| && Off(items, i + hop) == Off(items, i) + 3 + rel
    case Term(_) => true
  }

  ghost predicate Linked(items: seq<Item>) {
    WfItems(items) && forall i: nat | i < |items| :: LinkAt(items, i)
  }

  // No failure point resumes at a `\{0\}` that ends the pattern: there the code after `fail:` would
  // look at the byte past the end of the compiled pattern.
  ghost predicate Grounded(items: seq<Item>) {
    forall i: nat | i < |items| && Landing(items, i) && Skipped(items[i]) :: i + 1 < |items|
  }

  // Events from item i at text position d, over `depth` older failure points.
  ghost function Ev(items: seq<Item>, t: Text, i: nat, d: nat, depth: nat): seq<Event>
    requires Linked(items) && i <= |items| && d <= |t|
    decreases |items| - i, |t| - d, 1
  {
    if i == |items| then [Hit(d, depth == 0)]
    else
      assert LinkAt(items, i);
      match items[i]
      case Fork(span, _) =>
        if depth >= MAX_POINTS then [Overflow]
        else Ev(items, t, i + 1, d, depth + 1) + Resume(items, t, i + span, d, depth)
      case Past(hop, _) => Ev(items, t, i + hop, d, depth)
      case Term(Exact(s)) => if Occurs(s, t, d) then Ev(items, t, i + 1, d + |s|, depth) else []
      case Term(One(atom)) => if Unit(atom, t, d) then Ev(items, t, i + 1, d + 1, depth) else []
      case Term(Anchor(spot)) => if SpotHolds(spot, t, d) then Ev(items, t, i + 1, d, depth) else []
      case Term(Rep(atom, Star)) => Loop(items, t, i, d, depth)
      case Term(Rep(atom, Plus)) =>
        // dummy_failure_jump: the placeholder is popped again only by a pop_failure_jump.
        if depth >= MAX_POINTS then [Overflow]
        else if Unit(atom, t, d) then Loop(items, t, i, d + 1, if PopChosen(items, i) then depth else depth + 1)
        else []
      case Term(Rep(atom, Quest)) =>
        if depth >= MAX_POINTS then [Overflow]
        else if Unit(atom, t, d) then Ev(items, t, i + 1, d + 1, depth + 1) + Resume(items, t, i + 1, d, depth)
        else Resume(items, t, i + 1, d, depth)
      case Term(Rep(atom, Interval(lo, hi))) =>
        if hi == 0 then Ev(items, t, i + 1, d, depth) else Count(items, t, i, 0, d, depth)
  }

  // Popping a failure point for item i.
  ghost function Resume(items: seq<Item>, t: Text, i: nat, d: nat, depth: nat): seq<Event>
    requires Linked(items) && i <= |items| && d <= |t|
    decreases |items| - i, |t| - d, 2
  {
    if Dropped(items, i) then [] else Ev(items, t, i, d, depth)
  }

  predicate IsLoop(items: seq<Item>, i: nat) {
    i < |items| && items[i].Term? && items[i].piece.Rep? && (items[i].piece.q.Star? || items[i].piece.q.Plus?)
  }

  predicate IsCounted(items: seq<Item>, i: nat) {
    i < |items| && items[i].Term? && items[i].piece.Rep? && items[i].piece.q.Interval? && items[i].piece.q.hi > 0
  }

  // At the on_failure_jump of `*` or `\+`.
  ghost function Loop(items: seq<Item>, t: Text, i: nat, d: nat, depth: nat): seq<Event>
    requires Linked(items) && IsLoop(items, i) && d <= |t|
    decreases |items| - i, |t| - d, 0
  {
    if depth >= MAX_POINTS then [Overflow]
    else if !Unit(items[i].piece.atom, t, d) then Resume(items, t, i + 1, d, depth)
    else if PopChosen(items, i) then Loop(items, t, i, d + 1, depth)
    else Loop(items, t, i, d + 1, depth + 1) + Resume(items, t, i + 1, d, depth)
  }

  // At the succeed_n of an interval, c repetitions done.
  ghost function Count(items: seq<Item>, t: Text, i: nat, c: nat, d: nat, depth: nat): seq<Event>
    requires Linked(items) && IsCounted(items, i) && c < items[i].piece.q.hi && d <= |t|
    decreases |items| - i, |t| - d, 0
  {
    var (atom, lo) := (items[i].piece.atom, items[i].piece.q.lo);
    if c < lo then
      if Unit(atom, t, d) then Again(items, t, i, c + 1, d + 1, depth) else []
    else if depth >= MAX_POINTS then [Overflow]
    else if Unit(atom, t, d) then Again(items, t, i, c + 1, d + 1, depth + 1) + Resume(items, t, i + 1, d, depth)
    else Resume(items, t, i + 1, d, depth)
  }

  // At the jump_n of an interval, c repetitions done.
  ghost function Again(items: seq<Item>, t: Text, i: nat, c: nat, d: nat, depth: nat): seq<Event>
    requires Linked(items) && IsCounted(items, i) && 0 < c <= items[i].piece.q.hi && d <= |t|
    decreases |items| - i, |t| - d, 1
  {
    if c < items[i].piece.q.hi then Count(items, t, i, c, d, depth) else Ev(items, t, i + 1, d, depth)
  }

  /** What the code at the end of the pattern makes of the events, the best match so far being
      `best` (-1: none): a match to the end of the text is taken at once; with an empty failure
      stack the saved best is restored without a comparison; otherwise the search goes on. */
  function Outcome(evs: seq<Event>, best: int, size: nat): int
    decreases |evs|
  {
    if evs == [] then best
    else match evs[0]
      case Overflow => -2
      case Hit(end, alone) =>
        if end == size then end
        else if alone then (if best >= 0 then best else end)
        else Outcome(evs[1..], if end > best then end else best, size)
  }

  // The value of re_match_2: a length, -1 for no match, -2 for failure stack overflow.
  ghost function MatchResult(items: seq<Item>, t: Text, pos: int): int
    requires Linked(items)
  {
    if pos < 0 || pos > |t| then -1
    else
      var end := Outcome(Ev(items, t, 0, pos, 0), -1, |t|);
      if end >= 0 then end - pos else end
  }
}
