/**
 What matching compiled code returns, against the language of the pattern: recognition, and the longest
 match unless a shorter one found before is restored. The conditions, here on the compiled items, are put
 in terms of the pattern in RegexFine and RegexShadow.
 */
module RegexTheorems {
  import opened RegexAst
  import opened RegexCode
  import opened RegexTrace
  import opened RegexReach
  import opened RegexGreedy
  import opened RegexLayout

  ghost predicate Sound(items: seq<Item>) { PopsSound(items) && NothingDropped(items) }

  // ---------- The events of the alternatives, in order ----------

  ghost function AltEvents(bs: seq<Branch>, items: seq<Item>, t: Text, a: nat, pos: nat): seq<Event>
    requires Laid(bs, items) && a < |bs| && pos <= |t|
  {
    assert AltAt(bs, items, a);
    Ev(items, t, PiecesOf(bs, a), pos, if a == |bs| - 1 then 0 else 1)
  }

  ghost function AllEvents(bs: seq<Branch>, items: seq<Item>, t: Text, a: nat, pos: nat): seq<Event>
    requires Laid(bs, items) && a < |bs| && pos <= |t|
    decreases |bs| - a
  {
    if a == |bs| - 1 then AltEvents(bs, items, t, a, pos)
    else AltEvents(bs, items, t, a, pos) + AllEvents(bs, items, t, a + 1, pos)
  }

  lemma ForkEvents(items: seq<Item>, t: Text, i: nat, d: nat)
    requires Linked(items) && i < |items| && items[i].Fork? && d <= |t|
    requires i + items[i].span <= |items| && !Dropped(items, i + items[i].span)
    ensures Ev(items, t, i, d, 0) == Ev(items, t, i + 1, d, 1) + Ev(items, t, i + items[i].span, d, 0)
  {
  }

  lemma PastEvents(items: seq<Item>, t: Text, i: nat)
    requires Linked(items) && i < |items| && items[i].Past?
    requires i + items[i].hop <= |items| && EndsAt(items, t, i + items[i].hop)
    ensures EndsAt(items, t, i)
  {
    forall d: nat, depth: nat | d <= |t|
      ensures Ev(items, t, i, d, depth) == [Hit(d, depth == 0)]
    {
      assert Ev(items, t, i, d, depth) == Ev(items, t, i + items[i].hop, d, depth);
    }
  }

  lemma EventsAtEnd(items: seq<Item>, t: Text)
    requires Linked(items)
    ensures EndsAt(items, t, |items|)
  {
  }

  lemma {:induction false} EventsOfAll(bs: seq<Branch>, items: seq<Item>, t: Text, a: nat, pos: nat)
    requires Laid(bs, items) && NothingDropped(items) && a < |bs| && pos <= |t|
    ensures Linked(items) && Begin(bs, a) <= |items|
    ensures Ev(items, t, Begin(bs, a), pos, 0) == AllEvents(bs, items, t, a, pos)
    decreases |bs| - a
  {
    if a < |bs| - 1 {
      assert AltAt(bs, items, a);
      assert AltAt(bs, items, a + 1);
      EventsOfAll(bs, items, t, a + 1, pos);
      ForkEvents(items, t, Begin(bs, a), pos);
    } else {
      assert AltAt(bs, items, a);
    }
  }

  lemma {:induction false} AltEnds(bs: seq<Branch>, items: seq<Item>, t: Text, a: nat)
    requires Laid(bs, items) && a < |bs|
    ensures Linked(items) && PiecesOf(bs, a) + |bs[a]| <= |items|
    ensures EndsAt(items, t, PiecesOf(bs, a) + |bs[a]|)
    decreases |bs| - a
  {
    if a < |bs| - 1 {
      assert AltAt(bs, items, a);
      assert AltAt(bs, items, a + 1);
      AltEnds(bs, items, t, a + 1);
      PastEvents(items, t, PiecesOf(bs, a) + |bs[a]|);
    } else {
      assert AltAt(bs, items, a);
      EventsAtEnd(items, t);
    }
  }

  lemma AltGood(bs: seq<Branch>, items: seq<Item>, t: Text, a: nat, pos: nat)
    requires Laid(bs, items) && Sound(items) && a < |bs| && pos <= |t|
    ensures Good(AltEvents(bs, items, t, a, pos), bs[a], t, 0, 0, pos)
  {
    AltEnds(bs, items, t, a);
    assert AltAt(bs, items, a);
    EvGood(items, t, PiecesOf(bs, a), bs[a], 0, pos, if a == |bs| - 1 then 0 else 1);
  }

  lemma AltMatches(bs: seq<Branch>, t: Text, a: nat, pos: nat, e: nat)
    requires WfPattern(bs) && a < |bs| && pos <= |t|
    ensures Reach(bs[a], t, 0, 0, pos, e) <==> BranchMatches(bs[a], t, pos, e)
    ensures Reach(bs[a], t, 0, 0, pos, e) ==> PatternMatches(bs, t, pos, e) && e <= |t|
  {
    assert bs[a][0..] == bs[a];
    ReachIsMatch(bs[a], t, 0, pos, e);
    if Reach(bs[a], t, 0, 0, pos, e) { ReachForward(bs[a], t, 0, 0, pos, e); }
  }

  // ---------- A hit is `alone` only over an empty stack ----------

  predicate AloneOnly(evs: seq<Event>, depth: nat) {
    depth > 0 ==> forall n: nat | n < |evs| && evs[n].Hit? :: !evs[n].alone
  }

  lemma {:induction false} EvAlone(items: seq<Item>, t: Text, i: nat, d: nat, depth: nat)
    requires Linked(items) && i <= |items| && d <= |t|
    ensures AloneOnly(Ev(items, t, i, d, depth), depth)
    decreases |items| - i, |t| - d, 1
  {
    if i < |items| {
      assert LinkAt(items, i);
      match items[i]
      case Fork(span, _) =>
        if depth < MAX_POINTS {
          EvAlone(items, t, i + 1, d, depth + 1);
          EvAlone(items, t, i + span, d, depth);
        }
      case Past(hop, _) => EvAlone(items, t, i + hop, d, depth);
      case Term(Exact(s)) => if Occurs(s, t, d) { EvAlone(items, t, i + 1, d + |s|, depth); }
      case Term(One(atom)) => if Unit(atom, t, d) { EvAlone(items, t, i + 1, d + 1, depth); }
      case Term(Anchor(spot)) => EvAlone(items, t, i + 1, d, depth);
      case Term(Rep(atom, Star)) => LoopAlone(items, t, i, d, depth);
      case Term(Rep(atom, Plus)) =>
        if depth < MAX_POINTS && Unit(atom, t, d) {
          LoopAlone(items, t, i, d + 1, if PopChosen(items, i) then depth else depth + 1);
        }
      case Term(Rep(atom, Quest)) =>
        EvAlone(items, t, i + 1, d, depth);
        if Unit(atom, t, d) { EvAlone(items, t, i + 1, d + 1, depth + 1); }
      case Term(Rep(atom, Interval(lo, hi))) =>
        if hi == 0 { EvAlone(items, t, i + 1, d, depth); } else { CountAlone(items, t, i, 0, d, depth); }
    }
  }

  lemma {:induction false} LoopAlone(items: seq<Item>, t: Text, i: nat, d: nat, depth: nat)
    requires Linked(items) && IsLoop(items, i) && d <= |t|
    ensures AloneOnly(Loop(items, t, i, d, depth), depth)
    decreases |items| - i, |t| - d, 0
  {
    EvAlone(items, t, i + 1, d, depth);
    if depth < MAX_POINTS && Unit(items[i].piece.atom, t, d) {
      LoopAlone(items, t, i, d + 1, if PopChosen(items, i) then depth else depth + 1);
    }
  }

  lemma {:induction false} CountAlone(items: seq<Item>, t: Text, i: nat, c: nat, d: nat, depth: nat)
    requires Linked(items) && IsCounted(items, i) && c < items[i].piece.q.hi && d <= |t|
    ensures AloneOnly(Count(items, t, i, c, d, depth), depth)
    decreases |items| - i, |t| - d, 0
  {
    EvAlone(items, t, i + 1, d, depth);
    if Unit(items[i].piece.atom, t, d) {
      if c + 1 < items[i].piece.q.hi {
        CountAlone(items, t, i, c + 1, d + 1, depth);
        CountAlone(items, t, i, c + 1, d + 1, depth + 1);
      } else {
        EvAlone(items, t, i + 1, d + 1, depth);
        EvAlone(items, t, i + 1, d + 1, depth + 1);
      }
    }
  }

  // ---------- From events to the returned value ----------

  ghost predicate UpTo(evs: seq<Event>, top: int) { forall n: nat | n < |evs| && evs[n].Hit? :: evs[n].end <= top }

  ghost predicate NoneAlone(evs: seq<Event>) { forall n: nat | n < |evs| && evs[n].Hit? :: !evs[n].alone }

  // Events that cannot improve on the best so far are passed over.
  lemma {:induction false} OutcomePasses(evs: seq<Event>, rest: seq<Event>, best: int, size: nat)
    requires UpTo(evs, best) && NoneAlone(evs) && best < size
    ensures Outcome(evs + rest, best, size) == -2 || Outcome(evs + rest, best, size) == Outcome(rest, best, size)
    decreases |evs|
  {
    if evs == [] {
      assert evs + rest == rest;
    } else {
      assert (evs + rest)[1..] == evs[1..] + rest;
      if evs[0].Hit? { OutcomePasses(evs[1..], rest, best, size); }
    }
  }

  lemma OutcomeOfAlt(evs: seq<Event>, rest: seq<Event>, best: int, size: nat)
    requires evs != [] && evs[0].Hit? && UpTo(evs, evs[0].end) && NoneAlone(evs) && best < size && evs[0].end <= size
    ensures var out, top := Outcome(evs + rest, best, size), evs[0].end;
            out == -2 || out == if top == size then top else Outcome(rest, if top > best then top else best, size)
  {
    assert (evs + rest)[1..] == evs[1..] + rest;
    assert (evs + rest)[0] == evs[0];
    var top := evs[0].end;
    if top < size {
      OutcomePasses(evs[1..], rest, if top > best then top else best, size);
    }
  }

  lemma {:induction false} OutcomeOfLast(evs: seq<Event>, best: int, size: nat)
    requires UpTo(evs, best) && 0 <= best < size
    ensures Outcome(evs, best, size) == -2 || Outcome(evs, best, size) == best
    decreases |evs|
  {
    if evs != [] && evs[0].Hit? { OutcomeOfLast(evs[1..], best, size); }
  }

  // ---------- The theorem ----------

  ghost predicate LongestOf(b: Branch, t: Text, pos: nat, e: nat)
    requires pos <= |t|
  {
    BranchMatches(b, t, pos, e) && forall f: nat | BranchMatches(b, t, pos, f) :: f <= e
  }

  // best is the longest match among the first a alternatives, or -1 if they do not match.
  ghost predicate BestOf(bs: seq<Branch>, t: Text, a: nat, pos: nat, best: int)
    requires a <= |bs| && pos <= |t|
  {
    && (best == -1 || (best >= 0 && exists k: nat :: k < a && BranchMatches(bs[k], t, pos, best)))
    && (forall k: nat, f: nat | k < a && BranchMatches(bs[k], t, pos, f) :: f <= best)
  }

  // The last alternative's first success is met with an empty failure stack.
  ghost predicate LastAlone(bs: seq<Branch>, items: seq<Item>, t: Text, pos: nat)
    requires Laid(bs, items) && pos <= |t|
  {
    var evs := AltEvents(bs, items, t, |bs| - 1, pos);
    evs != [] && evs[0].Hit? && evs[0].alone
  }

  // An earlier alternative matches, the last one matches longer without reaching the end of the
  // text, and does so with no failure point left: the earlier, shorter match is restored.
  ghost predicate Restored(bs: seq<Branch>, items: seq<Item>, t: Text, pos: nat)
    requires Laid(bs, items) && pos <= |t|
  {
    LastAlone(bs, items, t, pos) && SomeShadow(bs, t, |bs| - 1, pos)
  }

  ghost predicate SomeShadow(bs: seq<Branch>, t: Text, last: nat, pos: nat)
    requires last < |bs| && pos <= |t|
  {
    exists best: nat, f: nat :: ShadowedBy(bs, t, last, pos, best, f)
  }

  ghost predicate ShadowedBy(bs: seq<Branch>, t: Text, last: nat, pos: nat, best: nat, f: nat)
    requires last < |bs| && pos <= |t|
  {
    BestOf(bs, t, last, pos, best) && LongestOf(bs[last], t, pos, f) && best < f < |t|
  }

  lemma AltFirst(bs: seq<Branch>, items: seq<Item>, t: Text, a: nat, pos: nat)
    requires Laid(bs, items) && Sound(items) && a < |bs| && pos <= |t|
    ensures var evs := AltEvents(bs, items, t, a, pos);
            && (evs == [] ==> forall f: nat :: !BranchMatches(bs[a], t, pos, f))
            && (evs != [] && evs[0].Hit? ==>
                  LongestOf(bs[a], t, pos, evs[0].end) && evs[0].end <= |t| && UpTo(evs, evs[0].end))
            && (a < |bs| - 1 ==> NoneAlone(evs))
  {
    AltGood(bs, items, t, a, pos);
    assert AltAt(bs, items, a);
    EvAlone(items, t, PiecesOf(bs, a), pos, if a == |bs| - 1 then 0 else 1);
    forall f: nat
      ensures Reach(bs[a], t, 0, 0, pos, f) <==> BranchMatches(bs[a], t, pos, f)
      ensures BranchMatches(bs[a], t, pos, f) ==> f <= |t|
    {
      AltMatches(bs, t, a, pos, f);
    }
  }

  // The returned position is right.
  ghost predicate Exact(bs: seq<Branch>, items: seq<Item>, t: Text, pos: nat, out: int)
    requires Laid(bs, items) && pos <= |t|
  {
    out == -2
    || (out == -1 && BestOf(bs, t, |bs|, pos, -1))
    || (out >= 0 && PatternMatches(bs, t, pos, out)
        && (BestOf(bs, t, |bs|, pos, out) <==> !Restored(bs, items, t, pos)))
  }

  lemma BestGrows(bs: seq<Branch>, t: Text, a: nat, pos: nat, best: int, top: nat)
    requires a < |bs| && pos <= |t| && BestOf(bs, t, a, pos, best) && LongestOf(bs[a], t, pos, top)
    ensures BestOf(bs, t, a + 1, pos, if top > best then top else best)
  {
    if top > best {
      assert a < a + 1 && BranchMatches(bs[a], t, pos, top);
    } else {
      var k: nat :| k < a && BranchMatches(bs[k], t, pos, best);
      assert k < a + 1;
    }
  }

  lemma BestStays(bs: seq<Branch>, t: Text, a: nat, pos: nat, best: int)
    requires a < |bs| && pos <= |t| && BestOf(bs, t, a, pos, best)
    requires forall f: nat :: !BranchMatches(bs[a], t, pos, f)
    ensures BestOf(bs, t, a + 1, pos, best)
  {
    if best >= 0 {
      var k: nat :| k < a && BranchMatches(bs[k], t, pos, best);
      assert k < a + 1;
    }
  }

  lemma BestMatches(bs: seq<Branch>, t: Text, a: nat, pos: nat, best: nat)
    requires a <= |bs| && pos <= |t| && BestOf(bs, t, a, pos, best)
    ensures PatternMatches(bs, t, pos, best)
  {
    var k: nat :| k < a && BranchMatches(bs[k], t, pos, best);
  }

  lemma BestUnique(bs: seq<Branch>, t: Text, a: nat, pos: nat, x: int, y: int)
    requires a <= |bs| && pos <= |t| && BestOf(bs, t, a, pos, x) && BestOf(bs, t, a, pos, y)
    ensures x == y
  {
    if x >= 0 { var k: nat :| k < a && BranchMatches(bs[k], t, pos, x); }
    if y >= 0 { var k: nat :| k < a && BranchMatches(bs[k], t, pos, y); }
  }

  lemma ShadowIs(bs: seq<Branch>, items: seq<Item>, t: Text, last: nat, pos: nat, best: int)
    requires Laid(bs, items) && last == |bs| - 1 && pos <= |t| && BestOf(bs, t, last, pos, best)
    ensures SomeShadow(bs, t, last, pos) <==>
            best >= 0 && exists f: nat :: LongestOf(bs[last], t, pos, f) && best < f < |t|
  {
    if SomeShadow(bs, t, last, pos) {
      var x: nat, f: nat :| ShadowedBy(bs, t, last, pos, x, f);
      BestUnique(bs, t, last, pos, x, best);
    }
    if f: nat :| best >= 0 && LongestOf(bs[last], t, pos, f) && best < f < |t| {
      assert ShadowedBy(bs, t, last, pos, best, f);
    }
  }

  // A match to the end of the text cannot be improved, nor shadowed.
  lemma EndIsExact(bs: seq<Branch>, items: seq<Item>, t: Text, a: nat, pos: nat)
    requires Laid(bs, items) && a < |bs| && pos <= |t| && BranchMatches(bs[a], t, pos, |t|)
    ensures Exact(bs, items, t, pos, |t|)
  {
    assert PatternMatches(bs, t, pos, |t|);
    forall k: nat, f: nat | k < |bs| && BranchMatches(bs[k], t, pos, f)
      ensures f <= |t|
    {
      AltMatches(bs, t, k, pos, f);
    }
    assert BestOf(bs, t, |bs|, pos, |t|);
    assert !SomeShadow(bs, t, |bs| - 1, pos);
  }

  lemma {:induction false} RunFrom(bs: seq<Branch>, items: seq<Item>, t: Text, a: nat, pos: nat, best: int)
    requires Laid(bs, items) && Sound(items) && a < |bs| && pos <= |t|
    requires BestOf(bs, t, a, pos, best) && best < |t|
    ensures Exact(bs, items, t, pos, Outcome(AllEvents(bs, items, t, a, pos), best, |t|))
    decreases |bs| - a
  {
    AltFirst(bs, items, t, a, pos);
    var evs := AltEvents(bs, items, t, a, pos);
    if a == |bs| - 1 {
      RunLast(bs, items, t, pos, best);
    } else {
      var rest := AllEvents(bs, items, t, a + 1, pos);
      assert AllEvents(bs, items, t, a, pos) == evs + rest;
      if evs == [] {
        assert evs + rest == rest;
        BestStays(bs, t, a, pos, best);
        RunFrom(bs, items, t, a + 1, pos, best);
      } else if evs[0].Hit? {
        var top := evs[0].end;
        var more := if top > best then top else best;
        OutcomeOfAlt(evs, rest, best, |t|);
        if top < |t| {
          BestGrows(bs, t, a, pos, best, top);
          RunFrom(bs, items, t, a + 1, pos, more);
          assert Exact(bs, items, t, pos, Outcome(rest, more, |t|));
        } else {
          EndIsExact(bs, items, t, a, pos);
        }
      } else {
        assert (evs + rest)[0] == Overflow;
      }
    }
  }

  lemma RunLast(bs: seq<Branch>, items: seq<Item>, t: Text, pos: nat, best: int)
    requires Laid(bs, items) && Sound(items) && pos <= |t|
    requires BestOf(bs, t, |bs| - 1, pos, best) && best < |t|
    ensures Exact(bs, items, t, pos, Outcome(AltEvents(bs, items, t, |bs| - 1, pos), best, |t|))
  {
    var evs, last := AltEvents(bs, items, t, |bs| - 1, pos), |bs| - 1;
    AltFirst(bs, items, t, last, pos);
    if evs == [] {
      BestStays(bs, t, last, pos, best);
      if best >= 0 { BestMatches(bs, t, last, pos, best); }
      assert !LastAlone(bs, items, t, pos);
    } else if evs[0].Hit? {
      var top := evs[0].end;
      BestGrows(bs, t, last, pos, best, top);
      if top == |t| {
        EndIsExact(bs, items, t, last, pos);
      } else if evs[0].alone && best >= 0 {
        LastRestores(bs, items, t, pos, best, top);
      } else {
        if !evs[0].alone { OutcomeOfLast(evs[1..], if top > best then top else best, |t|); }
        BestMatches(bs, t, |bs|, pos, if top > best then top else best);
        NotRestored(bs, items, t, pos, best);
      }
    }
  }

  lemma NotRestored(bs: seq<Branch>, items: seq<Item>, t: Text, pos: nat, best: int)
    requires Laid(bs, items) && pos <= |t| && BestOf(bs, t, |bs| - 1, pos, best)
    requires best == -1 || !LastAlone(bs, items, t, pos)
    ensures !Restored(bs, items, t, pos)
  {
    ShadowIs(bs, items, t, |bs| - 1, pos, best);
  }

  // The saved best is restored although the last alternative matched up to top.
  lemma LastRestores(bs: seq<Branch>, items: seq<Item>, t: Text, pos: nat, best: nat, top: nat)
    requires Laid(bs, items) && pos <= |t| && BestOf(bs, t, |bs| - 1, pos, best) && LongestOf(bs[|bs| - 1], t, pos, top)
    requires top < |t| && LastAlone(bs, items, t, pos) && BestOf(bs, t, |bs|, pos, if top > best then top else best)
    ensures Exact(bs, items, t, pos, best)
  {
    BestMatches(bs, t, |bs| - 1, pos, best);
    ShadowIs(bs, items, t, |bs| - 1, pos, best);
    if top > best && BestOf(bs, t, |bs|, pos, best) {
      BestUnique(bs, t, |bs|, pos, top, best);
    }
  }

  lemma LongestIsBest(bs: seq<Branch>, t: Text, pos: nat, out: nat)
    requires pos <= |t| && PatternMatches(bs, t, pos, out)
    ensures IsLongest(bs, t, pos, out) <==> BestOf(bs, t, |bs|, pos, out)
  {
    if IsLongest(bs, t, pos, out) {
      var a :| 0 <= a < |bs| && BranchMatches(bs[a], t, pos, out);
      forall k: nat, f: nat | k < |bs| && BranchMatches(bs[k], t, pos, f) ensures f <= out {
        assert PatternMatches(bs, t, pos, f);
      }
    }
  }

  /** re_match_2 on compiled code recognises the language of the pattern, and what it returns is the
      longest match unless a shorter one is restored. */
  lemma MatchOutcome(bs: seq<Branch>, items: seq<Item>, t: Text, pos: nat)
    requires Laid(bs, items) && Sound(items) && pos <= |t| && MatchResult(items, t, pos) != -2
    ensures MatchResult(items, t, pos) >= 0 <==> exists e: nat :: PatternMatches(bs, t, pos, e)
    ensures MatchResult(items, t, pos) >= 0 ==> PatternMatches(bs, t, pos, pos + MatchResult(items, t, pos))
    ensures MatchResult(items, t, pos) >= 0 ==>
              (IsLongest(bs, t, pos, pos + MatchResult(items, t, pos)) <==> !Restored(bs, items, t, pos))
  {
    EventsOfAll(bs, items, t, 0, pos);
    RunFrom(bs, items, t, 0, pos, -1);
    var out := Outcome(AllEvents(bs, items, t, 0, pos), -1, |t|);
    if out >= 0 {
      var a :| 0 <= a < |bs| && BranchMatches(bs[a], t, pos, out);
      AltMatches(bs, t, a, pos, out);
      ReachForward(bs[a], t, 0, 0, pos, out);
      LongestIsBest(bs, t, pos, out);
    }
  }

  /** Without alternation the longest match is always returned. */
  lemma SingleIsLongest(b: Branch, items: seq<Item>, t: Text, pos: nat)
    requires Laid([b], items) && Sound(items) && pos <= |t| && MatchResult(items, t, pos) != -2
    ensures MatchResult(items, t, pos) >= 0 <==> exists e: nat :: PatternMatches([b], t, pos, e)
    ensures MatchResult(items, t, pos) >= 0 ==> IsLongest([b], t, pos, pos + MatchResult(items, t, pos))
  {
    MatchOutcome([b], items, t, pos);
    NotRestored([b], items, t, pos, -1);
  }
}
