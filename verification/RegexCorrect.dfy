/**
 From the tokens of a pattern to the value re_match_2 returns on its compiled form: what that value has to do
 with the meaning of the tokens.
 */
module RegexCorrect {
  import opened Bytes
  import opened RegexAst
  import opened RegexCode
  import opened RegexTrace
  import opened RegexLayout
  import opened RegexTheorems
  import opened RegexFine
  import opened RegexShadow
  import opened RegexBracket
  import opened RegexSource
  import opened RegexFetch
  import opened RegexBuild

  // ---------- Addresses of a short pattern fit ----------

  lemma {:induction false} BranchesShort(bs: seq<Branch>, a: nat)
    requires WfPattern(bs) && a < |bs|
    ensures |BranchCode(bs[a])| + (if |bs| > 1 then 3 else 0) <= |PatternCode(bs)|
    decreases |bs|
  {
    hide BranchCode, WfBranch, HeadCode;
    if |bs| > 1 {
      hide PatternCode;
      PatternCons(bs);
      if a > 0 { BranchesShort(bs[1..], a - 1); }
    } else {
      assert PatternCode(bs) == HeadCode(bs[..0], Op1(JUMP_PAST_ALT, |BranchCode(bs[0])|)) + BranchCode(bs[0]);
    }
  }

  lemma ShortFits(bs: seq<Branch>)
    requires WfPattern(bs) && |PatternCode(bs)| <= MAX_NUMBER
    ensures JumpsFit(bs)
  {
    forall a: nat | a < |bs| ensures |bs| > 1 ==> |BranchCode(bs[a])| + 3 <= MAX_NUMBER { BranchesShort(bs, a); }
  }

  // ---------- End to end ----------

  /** The compiled form of a fine pattern is one re_match_2 is right about. */
  lemma CompiledIsReady(toks: seq<Token>, bs: seq<Branch>)
    requires Fine(Meaning(toks)) && WfPattern(bs) && Ungrouped(bs) == Meaning(toks) && JumpsFit(bs)
    ensures Ready(Flatten(bs), PatternCode(bs)) && Laid(bs, Flatten(bs)) && Sound(Flatten(bs))
  {
    hide Fine, Flatten, Sound, Grounded, Laid, Compiled, Linked, PatternCode, Parse;
    LaidOut(bs);
    PatternIsItems(bs);
    FlattenWf(bs);
    FreshCodeIsCompiled(Flatten(bs));
    FineUngrouped(bs);
    FineExactly(bs, Flatten(bs));
  }

  lemma {:induction false} NoBarOneBranch(toks: seq<Token>, before: Before, b: Branch)
    requires forall k | 0 <= k < |toks| :: !toks[k].Bar?
    ensures |Parse(toks, before, b)| == 1
    decreases |toks|
  {
    if toks != [] {
      match toks[0]
      case Char(c, _) => NoBarOneBranch(toks[1..], Single, b + [Exact([c])]);
      case Dot => NoBarOneBranch(toks[1..], Single, b + [One(Any)]);
      case Bracket(neg, ranges) => NoBarOneBranch(toks[1..], Single, b + [One(Set(neg, Members(ranges)))]);
      case Where(spot) => NoBarOneBranch(toks[1..], if before.Nothing? then Nothing else Other, b + [Anchor(spot)]);
      case Repeat(op) =>
        if before.Nothing? {
          NoBarOneBranch(toks[1..], Single, b + [Exact([OpByte(op)])]);
        } else {
          var n := RunLength(toks);
          NoBarOneBranch(toks[n..], Other, Quantify(b, QuantOf(ZeroOk(Ops(toks, n)), ManyOk(Ops(toks, n)))));
        }
      case Times(lo, hi) => NoBarOneBranch(toks[1..], Other, Quantify(b, Interval(lo, hi)));
    }
  }

  /** Compile, then match: a fine pattern is recognised exactly, wherever the text is not too long for the
      failure stack; what is returned is the length of a match, and of the longest one unless the last of
      several alternatives is shadowed. */
  lemma CompiledMatches(toks: seq<Token>, bs: seq<Branch>, t: Text, pos: nat)
    requires Fine(Meaning(toks)) && WfPattern(bs) && Ungrouped(bs) == Meaning(toks) && JumpsFit(bs)
    requires Linked(Flatten(bs)) && pos <= |t| && MatchResult(Flatten(bs), t, pos) != -2
    ensures var r := MatchResult(Flatten(bs), t, pos);
            && (r >= 0 <==> exists e: nat :: PatternMatches(Meaning(toks), t, pos, e))
            && (r >= 0 ==> PatternMatches(Meaning(toks), t, pos, pos + r))
            && (r >= 0 ==> (IsLongest(Meaning(toks), t, pos, pos + r) <==> !Shadowed(bs, t, pos)))
            && (r >= 0 && (forall k | 0 <= k < |toks| :: !toks[k].Bar?) ==> IsLongest(Meaning(toks), t, pos, pos + r))
  {
    hide Flatten, Laid, Sound, WfPattern, PatternCode, Parse, BranchMatches, MatchResult, Linked, Fine, PatternMatches,
         Ready, Shadowed,
      JumpsFit;
    CompiledIsReady(toks, bs);
    MatchIsExact(bs, Flatten(bs), t, pos);
    forall e: nat ensures PatternMatches(bs, t, pos, e) <==> PatternMatches(Meaning(toks), t, pos, e) {
      UngroupedSame(bs, t, pos, e);
    }
    if forall k | 0 <= k < |toks| :: !toks[k].Bar? {
      NoBarOneBranch(toks, Nothing, []);
      assert bs == [bs[0]];
      SingleIsLongest(bs[0], Flatten(bs), t, pos);
    }
  }
}
