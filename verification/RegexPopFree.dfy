/**
 Backtracking with a failure point kept for every choice, as if maybe_pop_jump always became a plain jump,
 and on a stack that never overflows: the reference the pops and the limit are measured against.
 */
module RegexPopFree {
  import opened RegexAst
  import opened RegexCode
  import opened RegexTrace
  import opened RegexReach
  import opened RegexLayout
  import opened RegexTheorems
  import opened RegexLimits

  // Where the branch can end from cursor (k, c) at x, in the order backtracking finds it: taking one more
  // repetition before leaving.
  function Ends(b: Branch, t: Text, k: nat, c: nat, x: nat): seq<nat>
    requires k <= |b| && x <= |t|
    decreases |t| - x, |b| - k
  {
    if k == |b| then if c == 0 then [x] else []
    else match b[k]
      case Exact(s) =>
        if !(c < |s| && x < |t| && t[x] == s[c]) then []
        else if c + 1 == |s| then Ends(b, t, k + 1, 0, x + 1) else Ends(b, t, k, c + 1, x + 1)
      case One(atom) => if c == 0 && Unit(atom, t, x) then Ends(b, t, k + 1, 0, x + 1) else []
      case Anchor(spot) => if c == 0 && SpotHolds(spot, t, x) then Ends(b, t, k + 1, 0, x) else []
      case Rep(atom, q) =>
        if c > (if q.Bounded() then q.Most() else q.Least()) then []
        else (if CanTake(q, c) && Unit(atom, t, x) then Ends(b, t, k, Taken(q, c), x + 1) else [])
             + (if CanLeave(q, c) then Ends(b, t, k + 1, 0, x) else [])
  }

  lemma {:induction false} EndsAreReached(b: Branch, t: Text, k: nat, c: nat, x: nat, e: nat)
    requires k <= |b| && x <= |t|
    ensures e in Ends(b, t, k, c, x) <==> Reach(b, t, k, c, x, e)
    decreases |t| - x, |b| - k
  {
    if k < |b| {
      match b[k]
      case Exact(s) =>
        if c < |s| && x < |t| {
          if c + 1 == |s| {
            EndsAreReached(b, t, k + 1, 0, x + 1, e);
          } else {
            EndsAreReached(b, t, k, c + 1, x + 1, e);
          }
        }
      case One(atom) => if Unit(atom, t, x) { EndsAreReached(b, t, k + 1, 0, x + 1, e); }
      case Anchor(spot) => EndsAreReached(b, t, k + 1, 0, x, e);
      case Rep(atom, q) =>
        RepEnds(b, t, k, c, x);
        EndsAreReached(b, t, k + 1, 0, x, e);
        if Unit(atom, t, x) { EndsAreReached(b, t, k, Taken(q, c), x + 1, e); }
        RepReached(b, t, k, c, x, e);
    }
  }

  lemma RepReached(b: Branch, t: Text, k: nat, c: nat, x: nat, e: nat)
    requires k < |b| && x <= |t| && b[k].Rep?
    requires e in Ends(b, t, k + 1, 0, x) <==> Reach(b, t, k + 1, 0, x, e)
    requires Unit(b[k].atom, t, x) ==>
               (e in Ends(b, t, k, Taken(b[k].q, c), x + 1) <==> Reach(b, t, k, Taken(b[k].q, c), x + 1, e))
    ensures e in Ends(b, t, k, c, x) <==> Reach(b, t, k, c, x, e)
  {
    RepEnds(b, t, k, c, x);
    hide Ends;
  }

  // The first end found is the furthest.
  lemma {:induction false} FirstIsFurthest(b: Branch, t: Text, k: nat, c: nat, x: nat)
    requires k <= |b| && x <= |t|
    ensures FirstIsMost(Ends(b, t, k, c, x))
    decreases |t| - x, |b| - k
  {
    if k < |b| {
      match b[k]
      case Exact(s) =>
        if c < |s| && x < |t| {
          if c + 1 == |s| { FirstIsFurthest(b, t, k + 1, 0, x + 1); } else { FirstIsFurthest(b, t, k, c + 1, x + 1); }
        }
      case One(atom) => if x < |t| { FirstIsFurthest(b, t, k + 1, 0, x + 1); }
      case Anchor(spot) => FirstIsFurthest(b, t, k + 1, 0, x);
      case Rep(atom, q) => RepFurthest(b, t, k, c, x);
    }
  }

  // If leaving would end further on than the first success of taking, taking could end there as well.
  lemma TakingReaches(b: Branch, t: Text, k: nat, c: nat, x: nat, first: nat, e: nat)
    requires k < |b| && x < |t| && b[k].Rep?
    requires first in Ends(b, t, k, Taken(b[k].q, c), x + 1) && e in Ends(b, t, k + 1, 0, x) && first < e
    ensures e in Ends(b, t, k, Taken(b[k].q, c), x + 1)
  {
    hide Ends, Reach;
    EndsAreReached(b, t, k, Taken(b[k].q, c), x + 1, first);
    EndsAreReached(b, t, k + 1, 0, x, e);
    Exchange(b, t, k, Taken(b[k].q, c), x + 1, first, k + 1, 0, x, e);
    EndsAreReached(b, t, k, Taken(b[k].q, c), x + 1, e);
  }

  ghost predicate FirstIsMost(ends: seq<nat>) { forall e: nat | e in ends :: e <= ends[0] }

  lemma MostOfBoth(take: seq<nat>, leave: seq<nat>)
    requires FirstIsMost(take) && FirstIsMost(leave)
    requires forall e: nat | e in leave && take != [] && take[0] < e :: e in take
    ensures FirstIsMost(take + leave)
  {
    var both := take + leave;
    forall e: nat | e in both ensures e <= both[0] {
      assert e in take || e in leave;
    }
  }

  function TakeEnds(b: Branch, t: Text, k: nat, c: nat, x: nat): seq<nat>
    requires k < |b| && x <= |t| && b[k].Rep?
  {
    if CanTake(b[k].q, c) && Unit(b[k].atom, t, x) then Ends(b, t, k, Taken(b[k].q, c), x + 1) else []
  }

  function LeaveEnds(b: Branch, t: Text, k: nat, c: nat, x: nat): seq<nat>
    requires k < |b| && x <= |t| && b[k].Rep?
  {
    if CanLeave(b[k].q, c) then Ends(b, t, k + 1, 0, x) else []
  }

  lemma RepEnds(b: Branch, t: Text, k: nat, c: nat, x: nat)
    requires k < |b| && x <= |t| && b[k].Rep?
    ensures var (take, leave) := (TakeEnds(b, t, k, c, x), LeaveEnds(b, t, k, c, x));
            Ends(b, t, k, c, x) ==
            if c > (if b[k].q.Bounded() then b[k].q.Most() else b[k].q.Least()) then [] else take + leave
  {
  }

  lemma {:induction false} RepFurthest(b: Branch, t: Text, k: nat, c: nat, x: nat)
    requires k < |b| && x <= |t| && b[k].Rep?
    ensures FirstIsMost(Ends(b, t, k, c, x))
    decreases |t| - x, |b| - k, 0
  {
    var (take, leave) := (TakeEnds(b, t, k, c, x), LeaveEnds(b, t, k, c, x));
    RepEnds(b, t, k, c, x);
    hide Ends;
    if CanTake(b[k].q, c) && Unit(b[k].atom, t, x) { FirstIsFurthest(b, t, k, Taken(b[k].q, c), x + 1); }
    FirstIsFurthest(b, t, k + 1, 0, x);
    forall e: nat | e in leave && take != [] && take[0] < e ensures e in take {
      TakingReaches(b, t, k, c, x, take[0], e);
    }
    MostOfBoth(take, leave);
  }

  /** Popping failure points that seem useless changes nothing: unless the stack overflows, the matcher
      returns the first success of backtracking that never pops any - or fails with it. */
  lemma PopsChangeNothing(b: Branch, items: seq<Item>, t: Text, pos: nat)
    requires Laid([b], items) && Sound(items) && pos <= |t| && MatchResult(items, t, pos) != -2
    ensures MatchResult(items, t, pos) == var ends := Ends(b, t, 0, 0, pos); if ends == [] then -1 else ends[0] - pos
  {
    hide MatchResult, Sound;
    var (r, ends) := (MatchResult(items, t, pos), Ends(b, t, 0, 0, pos));
    SingleIsLongest(b, items, t, pos);
    ResultRange([b], items, t, pos);
    assert [b][0] == b;
    forall e: nat ensures e in ends <==> PatternMatches([b], t, pos, e) {
      EndsAreReached(b, t, 0, 0, pos, e);
      AltMatches([b], t, 0, pos, e);
    }
    if ends != [] {
      assert ends[0] in ends;
      if r >= 0 {
        assert pos + r in ends;
        FirstIsFurthest(b, t, 0, 0, pos);
      }
    }
  }

  lemma ResultRange(bs: seq<Branch>, items: seq<Item>, t: Text, pos: nat)
    requires Laid(bs, items) && pos <= |t| && MatchResult(items, t, pos) != -2
    ensures MatchResult(items, t, pos) >= -1
  {
    OutcomeEnds(bs, items, t, pos);
    OutcomeLow(Ev(items, t, 0, pos, 0), -1, |t|);
  }

  lemma {:induction false} OutcomeLow(evs: seq<Event>, best: int, size: nat)
    requires best >= -1
    ensures Outcome(evs, best, size) >= -2
    decreases |evs|
  {
    if evs != [] && evs[0].Hit? { OutcomeLow(evs[1..], if evs[0].end > best then evs[0].end else best, size); }
  }
}
