/** The items of a whole pattern, and where each alternative stands among them. */
module RegexLayout {
  import opened Bytes
  import opened RegexAst
  import opened RegexCode
  import opened RegexTrace
  import opened RegexGreedy

  lemma TermsWf(b: Branch)
    requires WfBranch(b)
    ensures WfItems(Terms(b))
  {
  }

  ghost function BranchCode(b: Branch): seq<byte>
    requires WfBranch(b)
  {
    TermsWf(b);
    ItemsCode(Terms(b))
  }

  // With more than one alternative, each must be short enough to be jumped over.
  ghost predicate JumpsFit(bs: seq<Branch>)
    requires WfPattern(bs)
  {
    |bs| > 1 ==> forall a: nat | a < |bs| :: |BranchCode(bs[a])| + 3 <= MAX_NUMBER
  }

  // The on_failure_jump before an alternative leads past the jump_past_alt after it; that one leads
  // to the next jump_past_alt, the last of them to the end.
  ghost function Head(b: Branch, next: Branch, nextIsLast: bool): (r: seq<Item>)
    requires WfBranch(b) && WfBranch(next)
    ensures |r| == |b| + 2
  {
    [Fork(|b| + 2, |BranchCode(b)| + 3)]
    + (Terms(b)
       + [Past(if nextIsLast then |next| + 1 else |next| + 2, |BranchCode(next)| + (if nextIsLast then 0 else 3))])
  }

  ghost function Flatten(bs: seq<Branch>): seq<Item>
    requires WfPattern(bs)
  {
    if |bs| == 1 then Terms(bs[0])
    else Head(bs[0], bs[1], |bs| == 2) + Flatten(bs[1..])
  }

  lemma SandwichCode(f: Item, mid: seq<Item>, p: Item)
    requires WfItem(f) && WfItems(mid) && WfItem(p)
    ensures WfItems([f] + (mid + [p])) && ItemsCode([f] + (mid + [p])) == ItemCode(f) + (ItemsCode(mid) + ItemCode(p))
  {
    ItemsCodeConcat(mid, [p]);
    ItemsCodeConcat([f], mid + [p]);
    assert ItemsCode([f]) == ItemCode(f) + ItemsCode([]);
    assert ItemsCode([p]) == ItemCode(p) + ItemsCode([]);
  }

  lemma SandwichOffsets(f: Item, mid: seq<Item>, p: Item)
    requires !f.Term? && !p.Term?
    ensures Off([f] + (mid + [p]), |mid| + 1) == Off(mid, |mid|) + 3
    ensures Off([f] + (mid + [p]), |mid| + 2) == Off(mid, |mid|) + 6
  {
    hide PieceLen;
    var n := |mid|;
    assert Off([f], 1) == 3 by {
      assert Off([f], 0) == 0 && ItemLen(f) == 3;
    }
    OffWithin(mid, [p], n);
    OffShift([f], mid + [p], n);
    OffShift([f], mid + [p], n + 1);
    assert Off(mid + [p], n + 1) == Off(mid + [p], n) + ItemLen((mid + [p])[n]);
  }

  lemma HeadOffsets(b: Branch, next: Branch, last: bool)
    requires WfBranch(b) && WfBranch(next)
    requires |BranchCode(b)| + 3 <= MAX_NUMBER && |BranchCode(next)| + 3 <= MAX_NUMBER
    ensures var h := Head(b, next, last);
            && WfItems(h) && Off(h, |b| + 1) == |BranchCode(b)| + 3 && Off(h, |h|) == |BranchCode(b)| + 6
            && ItemsCode(h) == Op1(ON_FAILURE_JUMP, |BranchCode(b)| + 3)
                               + (BranchCode(b) + Op1(JUMP_PAST_ALT, |BranchCode(next)| + (if last then 0 else 3)))
  {
    hide PieceCode, AtomCode, PieceLen, Lo, Hi;
    var h := Head(b, next, last);
    TermsWf(b);
    CodeLen(Terms(b));
    SandwichCode(h[0], Terms(b), h[|b| + 1]);
    SandwichOffsets(h[0], Terms(b), h[|b| + 1]);
    assert h == [h[0]] + (Terms(b) + [h[|b| + 1]]);
  }

  // Within the flattened rest, where the jump_past_alt before it leads.
  ghost function FirstPast(bs: seq<Branch>): nat
    requires WfPattern(bs)
  {
    if |bs| == 1 then |bs[0]| else |bs[0]| + 1
  }

  lemma {:induction false} FlattenLinked(bs: seq<Branch>)
    requires WfPattern(bs) && JumpsFit(bs)
    ensures Linked(Flatten(bs))
    ensures FirstPast(bs) <= |Flatten(bs)|
    ensures Off(Flatten(bs), FirstPast(bs)) == |BranchCode(bs[0])| + (if |bs| == 1 then 0 else 3)
    decreases |bs|
  {
    hide PieceCode, AtomCode, PieceLen, ItemCode;
    var items := Flatten(bs);
    if |bs| == 1 {
      TermsWf(bs[0]);
      CodeLen(items);
    } else {
      var h, f := Head(bs[0], bs[1], |bs| == 2), Flatten(bs[1..]);
      assert |bs[1..]| > 1 ==> JumpsFit(bs[1..]);
      FlattenLinked(bs[1..]);
      HeadOffsets(bs[0], bs[1], |bs| == 2);
      LinkFirst(h, f);
      LinkLast(h, f);
      LinkedConcat(h, f);
      OffWithin(h, f, |bs[0]| + 1);
    }
  }

  lemma LinkFirst(h: seq<Item>, f: seq<Item>)
    requires |h| >= 2 && h[0].Fork? && h[0].span == |h| && Off(h, |h|) == 3 + h[0].rel && h[|h| - 1].Past?
    ensures LinkAt(h + f, 0)
  {
    OffWithin(h, f, |h|);
    assert (h + f)[|h| - 1] == h[|h| - 1];
  }

  lemma LinkLast(h: seq<Item>, f: seq<Item>)
    requires |h| >= 2 && h[|h| - 1].Past? && 0 < h[|h| - 1].hop <= |f| + 1
    requires Off(h, |h|) == Off(h, |h| - 1) + 3 && Off(f, h[|h| - 1].hop - 1) == h[|h| - 1].rel
    ensures LinkAt(h + f, |h| - 1)
  {
    OffWithin(h, f, |h| - 1);
    OffShift(h, f, h[|h| - 1].hop - 1);
    assert (h + f)[|h| - 1] == h[|h| - 1];
  }

  lemma LinkedConcat(h: seq<Item>, f: seq<Item>)
    requires WfItems(h) && Linked(f) && |h| >= 2
    requires LinkAt(h + f, 0) && LinkAt(h + f, |h| - 1)
    requires forall k: nat | 0 < k < |h| - 1 :: h[k].Term?
    ensures Linked(h + f)
  {
    var items, n := h + f, |h|;
    forall i: nat | i < |items|
      ensures LinkAt(items, i)
    {
      if i >= n { LinkShift(h, f, i - n); } else if 0 < i < n - 1 { assert items[i] == h[i]; }
    }
  }

  lemma LinkShift(h: seq<Item>, f: seq<Item>, j: nat)
    requires j < |f| && LinkAt(f, j)
    ensures LinkAt(h + f, |h| + j)
  {
    var items := h + f;
    assert items[|h| + j] == f[j];
    OffShift(h, f, j);
    match f[j]
    case Fork(span, _) =>
      assert items[|h| + j + span - 1] == f[j + span - 1];
      OffShift(h, f, j + span);
    case Past(hop, _) => OffShift(h, f, j + hop);
    case Term(_) =>
  }

  // Index of the first item of alternative a: its Fork, or its first piece if it is the last one.
  function Begin(bs: seq<Branch>, a: nat): nat
    requires a <= |bs|
  {
    if a == 0 then 0 else Begin(bs, a - 1) + |bs[a - 1]| + 2
  }

  function PiecesOf(bs: seq<Branch>, a: nat): nat
    requires a < |bs|
  {
    if a == |bs| - 1 then Begin(bs, a) else Begin(bs, a) + 1
  }

  lemma {:induction false} Layout(bs: seq<Branch>, a: nat)
    requires WfPattern(bs) && a < |bs|
    ensures Begin(bs, a) <= |Flatten(bs)| && Flatten(bs)[Begin(bs, a)..] == Flatten(bs[a..])
    decreases a
  {
    hide BranchCode, ItemsCode, ItemCode;
    if a == 0 {
      assert bs[0..] == bs;
    } else {
      Layout(bs, a - 1);
      var tail := bs[a - 1..];
      assert tail[1..] == bs[a..] && tail[0] == bs[a - 1];
      var h := Head(tail[0], tail[1], |tail| == 2);
      assert Flatten(tail) == h + Flatten(tail[1..]);
      assert Flatten(tail)[|h|..] == Flatten(tail[1..]);
    }
  }

  // Where alternative a stands, and where the jumps around it lead.
  ghost predicate AltAt(bs: seq<Branch>, items: seq<Item>, a: nat)
    requires a < |bs|
  {
    var s, b := PiecesOf(bs, a), bs[a];
    && s + |b| <= |items|
    && (forall k: nat | k < |b| :: items[s + k] == Term(b[k]))
    && (a == |bs| - 1 ==> s + |b| == |items|)
    && (a < |bs| - 1 ==>
          && s + |b| < |items| && items[s - 1].Fork? && s - 1 + items[s - 1].span == Begin(bs, a + 1)
          && items[s + |b|].Past? && s + |b| + items[s + |b|].hop == PiecesOf(bs, a + 1) + |bs[a + 1]|)
  }

  ghost predicate Laid(bs: seq<Branch>, items: seq<Item>) {
    WfPattern(bs) && Linked(items) && forall a: nat | a < |bs| :: AltAt(bs, items, a)
  }

  // The front of the flattened form.
  lemma FrontAt(bs: seq<Branch>, f: seq<Item>)
    requires WfPattern(bs) && |bs| > 1 && f == Flatten(bs)
    ensures var b := bs[0];
            && |b| + 2 <= |f| && f[0].Fork? && f[0].span == |b| + 2
            && (forall k: nat | k < |b| :: f[k + 1] == Term(b[k]))
            && f[|b| + 1].Past? && f[|b| + 1].hop == (if |bs| == 2 then |bs[1]| + 1 else |bs[1]| + 2)
  {
    hide BranchCode, ItemsCode, ItemCode;
    var (h, b) := (Head(bs[0], bs[1], |bs| == 2), bs[0]);
    assert f == h + Flatten(bs[1..]);
    assert f[0] == h[0] && f[|b| + 1] == h[|b| + 1];
    forall k: nat | k < |b| ensures f[k + 1] == Term(b[k]) { assert f[k + 1] == h[k + 1] == Terms(b)[k]; }
  }

  // From the front of what is left to the place in the whole.
  lemma AltAtFront(bs: seq<Branch>, a: nat, items: seq<Item>, f: seq<Item>)
    requires a < |bs| && Begin(bs, a) <= |items| && items[Begin(bs, a)..] == f
    requires a == |bs| - 1 ==> f == Terms(bs[a])
    requires a < |bs| - 1 ==>
               var b := bs[a];
               && |b| + 2 <= |f| && f[0].Fork? && f[0].span == |b| + 2
               && (forall k: nat | k < |b| :: f[k + 1] == Term(b[k]))
               && f[|b| + 1].Past? && f[|b| + 1].hop == (if a + 2 == |bs| then |bs[a + 1]| + 1 else |bs[a + 1]| + 2)
    ensures AltAt(bs, items, a)
  {
    var n := Begin(bs, a);
    if a < |bs| - 1 {
      forall k: nat | k < |bs[a]| ensures items[n + 1 + k] == Term(bs[a][k]) { assert items[n + (k + 1)] == f[k + 1]; }
    }
  }

  lemma LayoutAt(bs: seq<Branch>, a: nat)
    requires WfPattern(bs) && a < |bs|
    ensures AltAt(bs, Flatten(bs), a)
  {
    hide BranchCode, ItemsCode, ItemCode;
    Layout(bs, a);
    var tail := bs[a..];
    if a < |bs| - 1 { FrontAt(tail, Flatten(tail)); }
    AltAtFront(bs, a, Flatten(bs), Flatten(tail));
  }

  lemma LaidOut(bs: seq<Branch>)
    requires WfPattern(bs) && JumpsFit(bs)
    ensures Laid(bs, Flatten(bs))
  {
    FlattenLinked(bs);
    forall a: nat | a < |bs| ensures AltAt(bs, Flatten(bs), a) { LayoutAt(bs, a); }
  }
}
