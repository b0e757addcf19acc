/**
 The events of one alternative: every match reported is a match of the branch, and the first one
 reported is the longest - with failure points popped by pop_failure_jump included.
 */
module RegexGreedy {
  import opened Bytes
  import opened RegexAst
  import opened RegexCode
  import opened RegexTrace
  import opened RegexReach

  function Terms(b: Branch): (r: seq<Item>)
    ensures |r| == |b| && forall k: nat | k < |b| :: r[k] == Term(b[k])
  {
    seq(|b|, k requires 0 <= k < |b| => Term(b[k]))
  }

  ghost predicate EndsAt(items: seq<Item>, t: Text, j: nat)
    requires Linked(items) && j <= |items|
  {
    forall d: nat, depth: nat | d <= |t| :: Ev(items, t, j, d, depth) == [Hit(d, depth == 0)]
  }

  // The branch is items[s..s + |b|], and what follows leads to the end of the pattern.
  ghost predicate Region(items: seq<Item>, t: Text, s: nat, b: Branch) {
    && Linked(items) && WfBranch(b)
    && s + |b| <= |items|
    && (forall k: nat | k < |b| :: items[s + k] == Term(b[k]))
    && (s + |b| < |items| ==> items[s + |b|].Past?)
    && EndsAt(items, t, s + |b|)
  }

  // A byte the item certainly starts with, for the two kinds maybe_pop_jump examines.
  function LeadByte(it: Item): byte {
    if it.Term? && it.piece.Exact? && |it.piece.s| > 0 then it.piece.s[0] else NEWLINE
  }

  // The choice of pop_failure_jump at loop i is justified.
  ghost predicate PopSound(items: seq<Item>, i: nat)
    requires IsLoop(items, i)
  {
    PopChosen(items, i) && i + 1 < |items| ==> !AtomMatches(items[i].piece.atom, LeadByte(items[i + 1]))
  }

  // The loop body is a bracket whose bit map takes all 32 bytes, so that eight times its length is
  // truncated to 0, and it contains the byte that follows the loop.
  predicate CastFooled(atom: Atom, c: byte) {
    atom.Set? && !atom.neg && MapLen(atom.members) == 32 && c in atom.members
  }

  /** maybe_pop_jump's test is right about a body and a following byte exactly when the cast of the
      map length does not fool it - up to its caution about `.` and about 32-byte negated lists. */
  lemma NoClashExactly(atom: Atom, c: byte)
    ensures NoClash(atom, c) && AtomMatches(atom, c) <==> CastFooled(atom, c)
    ensures !NoClash(atom, c) ==>
              AtomMatches(atom, c) || atom.Any? || (atom.Set? && atom.neg && MapLen(atom.members) == 32)
  {
    if atom.Set? {
      var len := MapLen(atom.members);
      if len < 32 {
        assert (len * 8) % 256 == len * 8;
      } else {
        assert (len * 8) % 256 == 0;
      }
    }
  }

  // No loop of the pattern is fooled, and no failure point is dropped as if it were a loop's jump.
  ghost predicate PopsSound(items: seq<Item>) { forall i: nat | IsLoop(items, i) :: PopSound(items, i) }

  ghost predicate NothingDropped(items: seq<Item>) {
    forall i: nat | Landing(items, i) :: !Dropped(items, i)
  }

  ghost predicate Dead(b: Branch, t: Text, k: nat, x: nat)
    requires k <= |b| && x <= |t|
  {
    forall e: nat :: !Reach(b, t, k, 0, x, e)
  }

  // Events L are right for cursor (k, c) at x: sound, and the first of them is the longest match.
  ghost predicate Good(evs: seq<Event>, b: Branch, t: Text, k: nat, c: nat, x: nat)
    requires k <= |b| && x <= |t|
  {
    && (forall n: nat | n < |evs| && evs[n].Hit? :: Reach(b, t, k, c, x, evs[n].end))
    && (forall e: nat | Reach(b, t, k, c, x, e) :: evs != [] && (evs[0].Hit? ==> e <= evs[0].end))
  }

  lemma GoodOverflow(b: Branch, t: Text, k: nat, c: nat, x: nat)
    requires k <= |b| && x <= |t|
    ensures Good([Overflow], b, t, k, c, x)
  {
  }

  // Taking first, leaving second.
  lemma GoodChoice(take: seq<Event>, leave: seq<Event>, b: Branch, t: Text, k: nat, c: nat, x: nat)
    requires k < |b| && x < |t| && b[k].Rep? && c <= (if b[k].q.Bounded() then b[k].q.Most() else b[k].q.Least())
    requires CanLeave(b[k].q, c) && CanTake(b[k].q, c) && Unit(b[k].atom, t, x)
    requires Good(take, b, t, k, Taken(b[k].q, c), x + 1) && Good(leave, b, t, k + 1, 0, x)
    ensures Good(take + leave, b, t, k, c, x)
  {
    var evs, c1 := take + leave, Taken(b[k].q, c);
    forall n: nat | n < |evs| && evs[n].Hit?
      ensures Reach(b, t, k, c, x, evs[n].end)
    {
      if n < |take| { assert evs[n] == take[n]; } else { assert evs[n] == leave[n - |take|]; }
    }
    forall e: nat | Reach(b, t, k, c, x, e)
      ensures evs != [] && (evs[0].Hit? ==> e <= evs[0].end)
    {
      if Reach(b, t, k + 1, 0, x, e) {
        if take == [] {
          assert evs == leave;
        } else if take[0].Hit? && take[0].end < e {
          Exchange(b, t, k, c1, x + 1, take[0].end, k + 1, 0, x, e);
        }
      } else {
        assert Reach(b, t, k, c1, x + 1, e);
      }
    }
  }

  // Taking only, because leaving here would never succeed or only end here.
  lemma GoodPop(take: seq<Event>, b: Branch, t: Text, k: nat, c: nat, x: nat)
    requires k < |b| && x < |t| && b[k].Rep? && c <= (if b[k].q.Bounded() then b[k].q.Most() else b[k].q.Least())
    requires CanLeave(b[k].q, c) && CanTake(b[k].q, c) && Unit(b[k].atom, t, x) && CanLeave(b[k].q, Taken(b[k].q, c))
    requires Good(take, b, t, k, Taken(b[k].q, c), x + 1)
    requires Taken(b[k].q, c) <= (if b[k].q.Bounded() then b[k].q.Most() else b[k].q.Least())
    requires k + 1 == |b| || Dead(b, t, k + 1, x)
    ensures Good(take, b, t, k, c, x)
  {
    if k + 1 == |b| {
      assert Reach(b, t, k + 1, 0, x + 1, x + 1);
      assert Reach(b, t, k, Taken(b[k].q, c), x + 1, x + 1);
      forall e: nat | Reach(b, t, k, c, x, e)
        ensures take != [] && (take[0].Hit? ==> e <= take[0].end)
      {
        if !Reach(b, t, k + 1, 0, x, e) {
          assert Reach(b, t, k, Taken(b[k].q, c), x + 1, e);
        }
      }
    }
  }

  // Not able to take: leaving only.
  lemma GoodLeave(leave: seq<Event>, b: Branch, t: Text, k: nat, c: nat, x: nat)
    requires k < |b| && x <= |t| && b[k].Rep? && c <= (if b[k].q.Bounded() then b[k].q.Most() else b[k].q.Least())
    requires CanLeave(b[k].q, c) && !(CanTake(b[k].q, c) && Unit(b[k].atom, t, x))
    requires Good(leave, b, t, k + 1, 0, x)
    ensures Good(leave, b, t, k, c, x)
  {
  }

  lemma NoLead(items: seq<Item>, t: Text, s: nat, b: Branch, k: nat, x: nat)
    requires Region(items, t, s, b) && k < |b| && IsLoop(items, s + k) && PopChosen(items, s + k) && s + k + 1 < |items|
    requires PopSound(items, s + k) && x < |t| && Unit(b[k].atom, t, x)
    ensures k + 1 < |b| && Dead(b, t, k + 1, x)
  {
  }

  lemma {:induction false} EvGood(items: seq<Item>, t: Text, s: nat, b: Branch, k: nat, d: nat, depth: nat)
    requires Region(items, t, s, b) && PopsSound(items) && NothingDropped(items)
    requires k <= |b| && d <= |t|
    ensures Good(Ev(items, t, s + k, d, depth), b, t, k, 0, d)
    decreases |b| - k, |t| - d, 2
  {
    if k < |b| {
      match b[k]
      case Exact(str) =>
        assert str[0..] == str;
        forall e: nat ensures Reach(b, t, k, 0, d, e) <==> Occurs(str, t, d) && Reach(b, t, k + 1, 0, d + |str|, e) {
          ReachExact(b, t, k, 0, d, e);
        }
        if Occurs(str, t, d) { EvGood(items, t, s, b, k + 1, d + |str|, depth); }
      case One(atom) =>
        forall e: nat ensures Reach(b, t, k, 0, d, e) <==> Unit(atom, t, d) && Reach(b, t, k + 1, 0, d + 1, e) {
        }
        if Unit(atom, t, d) { EvGood(items, t, s, b, k + 1, d + 1, depth); }
      case Anchor(spot) =>
        forall e: nat ensures Reach(b, t, k, 0, d, e) <==> SpotHolds(spot, t, d) && Reach(b, t, k + 1, 0, d, e) {
        }
        if SpotHolds(spot, t, d) { EvGood(items, t, s, b, k + 1, d, depth); }
      case Rep(_, _) => RepGood(items, t, s, b, k, d, depth);
    }
  }

  lemma {:induction false} RepGood(items: seq<Item>, t: Text, s: nat, b: Branch, k: nat, d: nat, depth: nat)
    requires Region(items, t, s, b) && PopsSound(items) && NothingDropped(items)
    requires k < |b| && d <= |t| && b[k].Rep?
    ensures Good(Ev(items, t, s + k, d, depth), b, t, k, 0, d)
    decreases |b| - k, |t| - d, 1
  {
    var i := s + k;
    GoodOverflow(b, t, k, 0, d);
    match b[k]
    case Rep(atom, Star) => LoopGood(items, t, s, b, k, d, depth);
    case Rep(atom, Plus) =>
      forall e: nat ensures Reach(b, t, k, 0, d, e) <==> Unit(atom, t, d) && Reach(b, t, k, 1, d + 1, e) {
      }
      if Unit(atom, t, d) { LoopGood(items, t, s, b, k, d + 1, if PopChosen(items, i) then depth else depth + 1); }
    case Rep(atom, Quest) =>
      LandingAfter(items, i);
      EvGood(items, t, s, b, k + 1, d, depth);
      assert Resume(items, t, i + 1, d, depth) == Ev(items, t, i + 1, d, depth);
      if Unit(atom, t, d) {
        EvGood(items, t, s, b, k + 1, d + 1, depth + 1);
        GoodLeave(Ev(items, t, i + 1, d + 1, depth + 1), b, t, k, 1, d + 1);
        if depth < MAX_POINTS {
          GoodChoice(Ev(items, t, i + 1, d + 1, depth + 1), Ev(items, t, i + 1, d, depth), b, t, k, 0, d);
        }
      } else {
        GoodLeave(Ev(items, t, i + 1, d, depth), b, t, k, 0, d);
      }
    case Rep(atom, Interval(lo, hi)) =>
      if hi == 0 {
        EvGood(items, t, s, b, k + 1, d, depth);
        GoodLeave(Ev(items, t, i + 1, d, depth), b, t, k, 0, d);
      } else {
        CountGood(items, t, s, b, k, 0, d, depth);
      }
  }

  lemma LandingAfter(items: seq<Item>, i: nat)
    requires i < |items| && items[i].Term? && items[i].piece.Rep? && Choice(items[i].piece.q) && NothingDropped(items)
    ensures !Dropped(items, i + 1)
  {
    assert Landing(items, i + 1);
  }

  lemma {:induction false} LoopGood(items: seq<Item>, t: Text, s: nat, b: Branch, k: nat, d: nat, depth: nat)
    requires Region(items, t, s, b) && PopsSound(items) && NothingDropped(items)
    requires k < |b| && d <= |t| && IsLoop(items, s + k)
    ensures Good(Loop(items, t, s + k, d, depth), b, t, k, b[k].q.Least(), d)
    decreases |b| - k, |t| - d, 0
  {
    var i, c := s + k, b[k].q.Least();
    LandingAfter(items, i);
    if depth >= MAX_POINTS {
      assert Loop(items, t, i, d, depth) == [Overflow];
      GoodOverflow(b, t, k, c, d);
    } else if !Unit(b[k].atom, t, d) {
      assert Loop(items, t, i, d, depth) == Resume(items, t, i + 1, d, depth) == Ev(items, t, i + 1, d, depth);
      EvGood(items, t, s, b, k + 1, d, depth);
      GoodLeave(Ev(items, t, i + 1, d, depth), b, t, k, c, d);
    } else if PopChosen(items, i) {
      LoopGood(items, t, s, b, k, d + 1, depth);
      if i + 1 < |items| { NoLead(items, t, s, b, k, d); }
      GoodPop(Loop(items, t, i, d + 1, depth), b, t, k, c, d);
    } else {
      assert Resume(items, t, i + 1, d, depth) == Ev(items, t, i + 1, d, depth);
      assert Loop(items, t, i, d, depth) == Loop(items, t, i, d + 1, depth + 1) + Ev(items, t, i + 1, d, depth);
      LoopGood(items, t, s, b, k, d + 1, depth + 1);
      EvGood(items, t, s, b, k + 1, d, depth);
      GoodChoice(Loop(items, t, i, d + 1, depth + 1), Ev(items, t, i + 1, d, depth), b, t, k, c, d);
    }
  }

  lemma {:induction false} CountGood(items: seq<Item>, t: Text, s: nat, b: Branch, k: nat, c: nat, d: nat, depth: nat)
    requires Region(items, t, s, b) && PopsSound(items) && NothingDropped(items)
    requires k < |b| && d <= |t| && IsCounted(items, s + k) && c < b[k].q.hi
    ensures Good(Count(items, t, s + k, c, d, depth), b, t, k, c, d)
    decreases |b| - k, |t| - d, 0
  {
    var i := s + k;
    var (atom, lo) := (b[k].atom, b[k].q.lo);
    if c < lo {
      forall e: nat ensures Reach(b, t, k, c, d, e) <==> Unit(atom, t, d) && Reach(b, t, k, c + 1, d + 1, e) {
      }
      if Unit(atom, t, d) { AgainGood(items, t, s, b, k, c + 1, d + 1, depth); }
    } else if depth >= MAX_POINTS {
      GoodOverflow(b, t, k, c, d);
    } else {
      LandingAfter(items, i);
      EvGood(items, t, s, b, k + 1, d, depth);
      assert Resume(items, t, i + 1, d, depth) == Ev(items, t, i + 1, d, depth);
      if Unit(atom, t, d) {
        assert Count(items, t, i, c, d, depth) == Again(items, t, i, c + 1, d + 1, depth + 1) + Ev(items, t, i + 1, d,
                     depth);
        AgainGood(items, t, s, b, k, c + 1, d + 1, depth + 1);
        GoodChoice(Again(items, t, i, c + 1, d + 1, depth + 1), Ev(items, t, i + 1, d, depth), b, t, k, c, d);
      } else {
        GoodLeave(Ev(items, t, i + 1, d, depth), b, t, k, c, d);
      }
    }
  }

  lemma {:induction false} AgainGood(items: seq<Item>, t: Text, s: nat, b: Branch, k: nat, c: nat, d: nat, depth: nat)
    requires Region(items, t, s, b) && PopsSound(items) && NothingDropped(items)
    requires k < |b| && d <= |t| && IsCounted(items, s + k) && 0 < c <= b[k].q.hi
    ensures Good(Again(items, t, s + k, c, d, depth), b, t, k, c, d)
    decreases |b| - k, |t| - d, 1
  {
    if c < b[k].q.hi {
      CountGood(items, t, s, b, k, c, d, depth);
    } else {
      EvGood(items, t, s, b, k + 1, d, depth);
      GoodLeave(Ev(items, t, s + k + 1, d, depth), b, t, k, c, d);
    }
  }
}
