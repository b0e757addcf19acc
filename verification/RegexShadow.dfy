/**
 When a longer match of the last alternative is given up for a shorter one saved before: the condition
 the matcher finds on its failure stack, stated on the pattern and the text alone.
 */
module RegexShadow {
  import opened RegexAst
  import opened RegexCode
  import opened RegexTrace
  import opened RegexReach
  import opened RegexGreedy
  import opened RegexLayout
  import opened RegexTheorems

  // A loop of the last alternative whose failure point is popped at every turn: it ends the pattern, or
  // the literal or `$` that follows it is found not to clash with it.
  predicate Popped(b: Branch, k: nat)
    requires k < |b| && b[k].Rep?
  {
    if k + 1 == |b| then true
    else match b[k + 1]
      case Exact(s) => |s| > 0 && NoClash(b[k].atom, s[0])
      case Anchor(EndLine) => NoClash(b[k].atom, NEWLINE)
      case _ => false
  }

  predicate Looping(q: Quant) { q.Star? || q.Plus? }

  ghost predicate Succeeds(b: Branch, t: Text, k: nat, c: nat, x: nat)
    requires k <= |b| && x <= |t|
  {
    exists e: nat :: Reach(b, t, k, c, x, e)
  }

  // From cursor (k, c) at x the branch can be matched with some quantifier that keeps its failure
  // points given more than its least count.
  ghost predicate Lavish(b: Branch, t: Text, k: nat, c: nat, x: nat)
    requires k <= |b| && x <= |t|
    decreases |t| - x, |b| - k
  {
    if k == |b| then false
    else match b[k]
      case Exact(s) =>
        c < |s| && x < |t| && t[x] == s[c]
        && (if c + 1 == |s| then Lavish(b, t, k + 1, 0, x + 1) else Lavish(b, t, k, c + 1, x + 1))
      case One(atom) => c == 0 && Unit(atom, t, x) && Lavish(b, t, k + 1, 0, x + 1)
      case Anchor(spot) => c == 0 && SpotHolds(spot, t, x) && Lavish(b, t, k + 1, 0, x)
      case Rep(atom, q) =>
        c <= (if q.Bounded() then q.Most() else q.Least())
        && ((CanLeave(q, c) && Lavish(b, t, k + 1, 0, x))
            || (CanTake(q, c) && Unit(atom, t, x)
                && (if CanLeave(q, c) && !(Looping(q) && Popped(b, k)) then Succeeds(b, t, k, Taken(q, c), x + 1)
                    else Lavish(b, t, k, Taken(q, c), x + 1))))
  }

  // Some `\+` from piece k on leaves its dummy failure point behind.
  predicate DummyLeft(b: Branch, k: nat)
    requires k <= |b|
    decreases |b| - k
  {
    k < |b| && ((b[k].Rep? && b[k].q.Plus? && !Popped(b, k)) || DummyLeft(b, k + 1))
  }

  lemma {:induction false} LavishSucceeds(b: Branch, t: Text, k: nat, c: nat, x: nat)
    requires k <= |b| && x <= |t| && Lavish(b, t, k, c, x)
    ensures Succeeds(b, t, k, c, x)
    decreases |t| - x, |b| - k
  {
    match b[k]
    case Exact(s) =>
      if c + 1 == |s| { LavishSucceeds(b, t, k + 1, 0, x + 1); Advance(b, t, k, c, x, k + 1, 0, x + 1); }
      else { LavishSucceeds(b, t, k, c + 1, x + 1); Advance(b, t, k, c, x, k, c + 1, x + 1); }
    case One(_) =>
      LavishSucceeds(b, t, k + 1, 0, x + 1);
      Advance(b, t, k, c, x, k + 1, 0, x + 1);
    case Anchor(_) =>
      LavishSucceeds(b, t, k + 1, 0, x);
      Advance(b, t, k, c, x, k + 1, 0, x);
    case Rep(atom, q) =>
      if CanLeave(q, c) && Lavish(b, t, k + 1, 0, x) {
        LavishSucceeds(b, t, k + 1, 0, x);
        Advance(b, t, k, c, x, k + 1, 0, x);
      } else {
        if !Succeeds(b, t, k, Taken(q, c), x + 1) { LavishSucceeds(b, t, k, Taken(q, c), x + 1); }
        Advance(b, t, k, c, x, k, Taken(q, c), x + 1);
      }
  }

  // Whatever the next cursor reaches, this one reaches.
  lemma Advance(b: Branch, t: Text, k: nat, c: nat, x: nat, k': nat, c': nat, x': nat)
    requires k <= |b| && x <= |t| && k' <= |b| && x' <= |t| && Succeeds(b, t, k', c', x')
    requires forall e: nat :: Reach(b, t, k', c', x', e) ==> Reach(b, t, k, c, x, e)
    ensures Succeeds(b, t, k, c, x)
  {
    var e: nat :| Reach(b, t, k', c', x', e);
    assert Reach(b, t, k, c, x, e);
  }

  // ---------- The events of the last alternative ----------

  // If the first event is a success, it comes with an empty stack exactly when `quiet`.
  predicate Tells(evs: seq<Event>, quiet: bool) { evs != [] && evs[0].Hit? ==> (evs[0].alone <==> quiet) }

  ghost predicate LastRegion(items: seq<Item>, t: Text, s: nat, b: Branch) {
    Region(items, t, s, b) && s + |b| == |items| && PopsSound(items) && NothingDropped(items)
  }

  lemma PoppedIsChosen(items: seq<Item>, t: Text, s: nat, b: Branch, k: nat)
    requires LastRegion(items, t, s, b) && k < |b| && b[k].Rep?
    ensures PopChosen(items, s + k) <==> Popped(b, k)
  {
    assert items[s + k] == Term(b[k]);
    if k + 1 < |b| { assert items[s + (k + 1)] == Term(b[k + 1]); }
  }

  lemma LavishExact(b: Branch, t: Text, k: nat, c: nat, x: nat)
    requires k < |b| && x <= |t| && b[k].Exact? && c < |b[k].s|
    ensures Lavish(b, t, k, c, x) <==>
            Occurs(b[k].s[c..], t, x) && Lavish(b, t, k + 1, 0, x + |b[k].s| - c)
    decreases |b[k].s| - c
  {
    var s := b[k].s;
    if x < |t| && t[x] == s[c] {
      if c + 1 < |s| {
        LavishExact(b, t, k, c + 1, x + 1);
        if x + |s| - c <= |t| {
          assert t[x..x + |s| - c] == [t[x]] + t[x + 1..x + |s| - c];
          assert s[c..] == [s[c]] + s[c + 1..];
        }
      }
    } else if x + |s| - c <= |t| {
      assert t[x..x + |s| - c][0] == t[x] && s[c..][0] == s[c];
    }
  }

  // Taking first, over a failure point that is kept: a success by taking is not alone.
  lemma TellsChoice(take: seq<Event>, leave: seq<Event>, b: Branch, t: Text, k: nat, c: nat, x: nat, dummy: bool)
    requires k < |b| && x < |t| && b[k].Rep? && c <= (if b[k].q.Bounded() then b[k].q.Most() else b[k].q.Least())
    requires CanLeave(b[k].q, c) && CanTake(b[k].q, c) && Unit(b[k].atom, t, x) && !(Looping(b[k].q) && Popped(b, k))
    requires Good(take, b, t, k, Taken(b[k].q, c), x + 1) && AloneOnly(take, 1)
    requires Tells(leave, !Lavish(b, t, k + 1, 0, x) && !dummy)
    ensures Tells(take + leave, !Lavish(b, t, k, c, x) && !dummy)
  {
    var c1 := Taken(b[k].q, c);
    if take == [] {
      assert take + leave == leave;
      assert !Succeeds(b, t, k, c1, x + 1);
    } else {
      assert (take + leave)[0] == take[0];
      if take[0].Hit? { assert Reach(b, t, k, c1, x + 1, take[0].end); }
    }
  }

  lemma {:induction false} EvTells(items: seq<Item>, t: Text, s: nat, b: Branch, k: nat, d: nat)
    requires LastRegion(items, t, s, b) && k <= |b| && d <= |t|
    ensures Tells(Ev(items, t, s + k, d, 0), !Lavish(b, t, k, 0, d) && !DummyLeft(b, k))
    decreases |b| - k, |t| - d, 2
  {
    if k < |b| {
      match b[k]
      case Exact(str) =>
        assert str[0..] == str;
        LavishExact(b, t, k, 0, d);
        if Occurs(str, t, d) { EvTells(items, t, s, b, k + 1, d + |str|); }
      case One(atom) => if Unit(atom, t, d) { EvTells(items, t, s, b, k + 1, d + 1); }
      case Anchor(spot) => if SpotHolds(spot, t, d) { EvTells(items, t, s, b, k + 1, d); }
      case Rep(_, _) => RepTells(items, t, s, b, k, d);
    }
  }

  lemma {:induction false} RepTells(items: seq<Item>, t: Text, s: nat, b: Branch, k: nat, d: nat)
    requires LastRegion(items, t, s, b) && k < |b| && d <= |t| && b[k].Rep?
    ensures Tells(Ev(items, t, s + k, d, 0), !Lavish(b, t, k, 0, d) && !DummyLeft(b, k))
    decreases |b| - k, |t| - d, 1
  {
    var i := s + k;
    PoppedIsChosen(items, t, s, b, k);
    match b[k]
    case Rep(atom, Star) => LoopTells(items, t, s, b, k, d);
    case Rep(atom, Plus) =>
      if Unit(atom, t, d) {
        if PopChosen(items, i) { LoopTells(items, t, s, b, k, d + 1); } else { LoopAlone(items, t, i, d + 1, 1); }
      }
    case Rep(atom, Quest) =>
      LandingAfter(items, i);
      EvTells(items, t, s, b, k + 1, d);
      assert Resume(items, t, i + 1, d, 0) == Ev(items, t, i + 1, d, 0);
      if Unit(atom, t, d) {
        EvGood(items, t, s, b, k + 1, d + 1, 1);
        GoodLeave(Ev(items, t, i + 1, d + 1, 1), b, t, k, 1, d + 1);
        EvAlone(items, t, i + 1, d + 1, 1);
        TellsChoice(Ev(items, t, i + 1, d + 1, 1), Ev(items, t, i + 1, d, 0), b, t, k, 0, d, DummyLeft(b, k + 1));
      }
    case Rep(atom, Interval(lo, hi)) =>
      if hi == 0 { EvTells(items, t, s, b, k + 1, d); } else { CountTells(items, t, s, b, k, 0, d); }
  }

  lemma {:induction false} LoopTells(items: seq<Item>, t: Text, s: nat, b: Branch, k: nat, d: nat)
    requires LastRegion(items, t, s, b) && k < |b| && d <= |t| && IsLoop(items, s + k)
    ensures Tells(Loop(items, t, s + k, d, 0), !Lavish(b, t, k, b[k].q.Least(), d) && !DummyLeft(b, k + 1))
    decreases |b| - k, |t| - d, 0
  {
    var i, c := s + k, b[k].q.Least();
    LandingAfter(items, i);
    PoppedIsChosen(items, t, s, b, k);
    assert Resume(items, t, i + 1, d, 0) == Ev(items, t, i + 1, d, 0);
    if !Unit(b[k].atom, t, d) {
      EvTells(items, t, s, b, k + 1, d);
    } else if PopChosen(items, i) {
      LoopTells(items, t, s, b, k, d + 1);
      if i + 1 < |items| { NoLead(items, t, s, b, k, d); }
      if Lavish(b, t, k + 1, 0, d) { LavishSucceeds(b, t, k + 1, 0, d); }
    } else {
      EvTells(items, t, s, b, k + 1, d);
      LoopGood(items, t, s, b, k, d + 1, 1);
      LoopAlone(items, t, i, d + 1, 1);
      assert Loop(items, t, i, d, 0) == Loop(items, t, i, d + 1, 1) + Ev(items, t, i + 1, d, 0);
      TellsChoice(Loop(items, t, i, d + 1, 1), Ev(items, t, i + 1, d, 0), b, t, k, c, d, DummyLeft(b, k + 1));
    }
  }

  lemma {:induction false} CountTells(items: seq<Item>, t: Text, s: nat, b: Branch, k: nat, c: nat, d: nat)
    requires LastRegion(items, t, s, b) && k < |b| && d <= |t| && IsCounted(items, s + k) && c < b[k].q.hi
    ensures Tells(Count(items, t, s + k, c, d, 0), !Lavish(b, t, k, c, d) && !DummyLeft(b, k + 1))
    decreases |b| - k, |t| - d, 0
  {
    var i := s + k;
    var (atom, lo) := (b[k].atom, b[k].q.lo);
    if c < lo {
      if Unit(atom, t, d) { AgainTells(items, t, s, b, k, c + 1, d + 1); }
    } else {
      LandingAfter(items, i);
      EvTells(items, t, s, b, k + 1, d);
      assert Resume(items, t, i + 1, d, 0) == Ev(items, t, i + 1, d, 0);
      if Unit(atom, t, d) {
        var take := Again(items, t, i, c + 1, d + 1, 1);
        assert Count(items, t, i, c, d, 0) == take + Ev(items, t, i + 1, d, 0);
        AgainGood(items, t, s, b, k, c + 1, d + 1, 1);
        if c + 1 < b[k].q.hi { CountAlone(items, t, i, c + 1, d + 1, 1); } else { EvAlone(items, t, i + 1, d + 1, 1); }
        TellsChoice(take, Ev(items, t, i + 1, d, 0), b, t, k, c, d, DummyLeft(b, k + 1));
      }
    }
  }

  lemma {:induction false} AgainTells(items: seq<Item>, t: Text, s: nat, b: Branch, k: nat, c: nat, d: nat)
    requires LastRegion(items, t, s, b) && k < |b| && d <= |t| && IsCounted(items, s + k) && 0 < c <= b[k].q.hi
    ensures Tells(Again(items, t, s + k, c, d, 0), !Lavish(b, t, k, c, d) && !DummyLeft(b, k + 1))
    decreases |b| - k, |t| - d, 1
  {
    if c < b[k].q.hi { CountTells(items, t, s, b, k, c, d); } else { EvTells(items, t, s, b, k + 1, d); }
  }

  // ---------- The shadowed case ----------

  /** An earlier alternative matches; the last one matches longer, but not to the end of the text; and
      no way of matching the last one gives a quantifier that keeps its failure points more than its
      least count, nor does it hold a `\+` that keeps its dummy one. */
  ghost predicate Shadowed(bs: seq<Branch>, t: Text, pos: nat)
    requires bs != [] && pos <= |t|
  {
    var last := |bs| - 1;
    SomeShadow(bs, t, last, pos) && !Lavish(bs[last], t, 0, 0, pos) && !DummyLeft(bs[last], 0)
  }

  lemma LastTells(bs: seq<Branch>, items: seq<Item>, t: Text, pos: nat)
    requires Laid(bs, items) && Sound(items) && pos <= |t|
    ensures var (last, evs) := (|bs| - 1, AltEvents(bs, items, t, |bs| - 1, pos));
            Tells(evs, !Lavish(bs[last], t, 0, 0, pos) && !DummyLeft(bs[last], 0))
  {
    var last := |bs| - 1;
    AltEnds(bs, items, t, last);
    assert AltAt(bs, items, last);
    EvTells(items, t, PiecesOf(bs, last), bs[last], 0, pos);
  }

  // ---------- A refusal of the stack is not passed over ----------

  // Events after which the search for a longer match goes on.
  ghost predicate GoesOn(evs: seq<Event>, size: nat) {
    forall n: nat | n < |evs| && evs[n].Hit? :: !evs[n].alone && evs[n].end < size
  }

  lemma {:induction false} OverflowWins(evs: seq<Event>, rest: seq<Event>, best: int, size: nat)
    requires GoesOn(evs, size) && forall b: int :: Outcome(rest, b, size) == -2
    ensures Outcome(evs + rest, best, size) == -2
    decreases |evs|
  {
    if evs == [] {
      assert evs + rest == rest;
    } else {
      assert (evs + rest)[1..] == evs[1..] + rest;
      if evs[0].Hit? { OverflowWins(evs[1..], rest, if evs[0].end > best then evs[0].end else best, size); }
    }
  }

  lemma {:induction false} AllOverflow(bs: seq<Branch>, items: seq<Item>, t: Text, a: nat, pos: nat, best: int)
    requires Laid(bs, items) && a < |bs| && pos <= |t|
    requires forall k: nat | k < |bs| - 1 :: GoesOn(AltEvents(bs, items, t, k, pos), |t|)
    requires var evs := AltEvents(bs, items, t, |bs| - 1, pos); evs != [] && evs[0] == Overflow
    ensures Outcome(AllEvents(bs, items, t, a, pos), best, |t|) == -2
    decreases |bs| - a
  {
    if a < |bs| - 1 {
      var rest := AllEvents(bs, items, t, a + 1, pos);
      forall b: int ensures Outcome(rest, b, |t|) == -2 { AllOverflow(bs, items, t, a + 1, pos, b); }
      OverflowWins(AltEvents(bs, items, t, a, pos), rest, best, |t|);
    }
  }

  // An earlier alternative that matches short of the end of the text leaves the search going on.
  lemma ShortGoesOn(bs: seq<Branch>, items: seq<Item>, t: Text, a: nat, pos: nat, best: nat)
    requires Laid(bs, items) && Sound(items) && pos <= |t| && a < |bs| - 1 && BestOf(bs, t, |bs| - 1, pos, best)
    requires best < |t|
    ensures GoesOn(AltEvents(bs, items, t, a, pos), |t|)
  {
    AltGood(bs, items, t, a, pos);
    AltFirst(bs, items, t, a, pos);
    var evs := AltEvents(bs, items, t, a, pos);
    forall n: nat | n < |evs| && evs[n].Hit? ensures !evs[n].alone && evs[n].end < |t| {
      AltMatches(bs, t, a, pos, evs[n].end);
    }
  }

  /** What the matcher finds on its stack when it gives up a longer match is what the pattern and the text
      say, unless it has run out of stack. */
  lemma RestoredIsShadowed(bs: seq<Branch>, items: seq<Item>, t: Text, pos: nat)
    requires Laid(bs, items) && Sound(items) && pos <= |t| && MatchResult(items, t, pos) != -2
    ensures Restored(bs, items, t, pos) <==> Shadowed(bs, t, pos)
  {
    LastTells(bs, items, t, pos);
    if Shadowed(bs, t, pos) {
      var last := |bs| - 1;
      var best: nat, f: nat :| ShadowedBy(bs, t, last, pos, best, f);
      AltFirst(bs, items, t, last, pos);
      if AltEvents(bs, items, t, last, pos)[0] == Overflow {
        forall k: nat | k < |bs| - 1
          ensures GoesOn(AltEvents(bs, items, t, k, pos), |t|)
        {
          ShortGoesOn(bs, items, t, k, pos, best);
        }
        AllOverflow(bs, items, t, 0, pos, -1);
        EventsOfAll(bs, items, t, 0, pos);
        assert false;
      }
    }
  }

  /** re_match_2 on compiled code recognises the language of the pattern; what it returns is the longest match
      unless the last alternative is shadowed - a condition on the pattern and the text alone. */
  lemma MatchIsExact(bs: seq<Branch>, items: seq<Item>, t: Text, pos: nat)
    requires Laid(bs, items) && Sound(items) && pos <= |t| && MatchResult(items, t, pos) != -2
    ensures var r := MatchResult(items, t, pos);
            && (r >= 0 <==> exists e: nat :: PatternMatches(bs, t, pos, e))
            && (r >= 0 ==> PatternMatches(bs, t, pos, pos + r))
            && (r >= 0 ==> (IsLongest(bs, t, pos, pos + r) <==> !Shadowed(bs, t, pos)))
  {
    hide Shadowed, Restored, BranchMatches, MatchResult;
    MatchOutcome(bs, items, t, pos);
    RestoredIsShadowed(bs, items, t, pos);
  }

  predicate Unquantified(b: Branch) { forall k | 0 <= k < |b| :: !b[k].Rep? }

  lemma {:induction false} PlainIsThrifty(b: Branch, t: Text, k: nat, c: nat, x: nat)
    requires Unquantified(b) && k <= |b| && x <= |t|
    ensures !Lavish(b, t, k, c, x) && !DummyLeft(b, k)
    decreases |t| - x, |b| - k
  {
    if k < |b| {
      PlainDummies(b, k);
      match b[k]
      case Exact(s) =>
        if c < |s| && x < |t| {
          if c + 1 == |s| { PlainIsThrifty(b, t, k + 1, 0, x + 1); } else { PlainIsThrifty(b, t, k, c + 1, x + 1); }
        }
      case One(_) => if x < |t| { PlainIsThrifty(b, t, k + 1, 0, x + 1); }
      case Anchor(_) => PlainIsThrifty(b, t, k + 1, 0, x);
    }
  }

  lemma {:induction false} PlainDummies(b: Branch, k: nat)
    requires Unquantified(b) && k <= |b|
    ensures !DummyLeft(b, k)
    decreases |b| - k
  {
    if k < |b| { PlainDummies(b, k + 1); }
  }

  /** When the last alternative has no quantifiers, it is shadowed exactly when the longest match of the
      earlier ones is shorter than its own, which does not reach the end of the text - as with `a\|ab` on
      `abc`. */
  lemma PlainLastShadows(bs: seq<Branch>, t: Text, pos: nat)
    requires bs != [] && pos <= |t| && Unquantified(bs[|bs| - 1])
    ensures Shadowed(bs, t, pos) <==> SomeShadow(bs, t, |bs| - 1, pos)
  {
    PlainIsThrifty(bs[|bs| - 1], t, 0, 0, pos);
  }
}
