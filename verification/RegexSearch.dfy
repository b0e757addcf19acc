/**
 re_search_2 over one string, forward: the fastmap decides where re_match_2 is tried, and the result
 is that of trying it everywhere.
 */
module RegexSearch {
  import opened Bytes
  import opened RegexAst
  import opened RegexCode
  import opened RegexTrace
  import opened RegexFetch
  import opened RegexVm
  import opened RegexFirst
  import opened RegexFastmap
  import opened RegexMiss
  import opened RegexPlain
  import opened RegexNested
  import opened RegexTree
  import opened RegexFlow
  import opened RegexLayout
  import opened RegexTheorems
  import opened RegexFine
  import opened RegexBuild
  import opened RegexLimits
  import opened RegexSource
  import opened RegexCorrect

  // ---------- Searching ----------

  // Trying every start from `start` to `last`.
  ghost function SearchFrom(items: seq<Item>, t: Text, start: nat, last: int): int
    requires Linked(items) && last <= |t|
    decreases last + 1 - start
  {
    if start > last then -1
    else
      var r := MatchResult(items, t, start);
      if r >= 0 then start else if r == -2 then -2 else SearchFrom(items, t, start + 1, last)
  }

  ghost predicate MatchesAt(bs: seq<Branch>, t: Text, pos: nat)
    requires pos <= |t|
  {
    exists e: nat :: PatternMatches(bs, t, pos, e)
  }

  /** A search finds the least start in range at which the pattern matches, or that there is none; it
      runs out of failure stack only in a text of more than 2558 bytes. */
  lemma {:induction false} SearchFindsFirst(bs: seq<Branch>, items: seq<Item>, t: Text, start: nat, last: int)
    requires Laid(bs, items) && Sound(items) && last <= |t|
    ensures var r := SearchFrom(items, t, start, last);
            && (r >= 0 ==> start <= r <= last && MatchesAt(bs, t, r)
                           && forall k: nat | start <= k < r :: !MatchesAt(bs, t, k))
            && (r == -1 ==> forall k: nat | start <= k <= last :: !MatchesAt(bs, t, k))
            && r >= -2 && (r == -2 ==> |t| - start + 1 >= MAX_POINTS)
    decreases last + 1 - start
  {
    if start <= last {
      var r := MatchResult(items, t, start);
      if r == -2 {
        if Enough(t, start, if |bs| == 1 then 0 else 1) { ShortTextsFit(bs, items, t, start); }
      } else {
        MatchOutcome(bs, items, t, start);
        if r < 0 { SearchFindsFirst(bs, items, t, start + 1, last); }
      }
    }
  }

  /** Compile, then search: for a fine pattern the search finds the least start in range at which the
      pattern, as written, matches. */
  lemma CompiledSearch(toks: seq<Token>, bs: seq<Branch>, t: Text, start: nat, last: int)
    requires Fine(Meaning(toks)) && WfPattern(bs) && Ungrouped(bs) == Meaning(toks) && JumpsFit(bs) && last <= |t|
    ensures Laid(bs, Flatten(bs))
    ensures var r := SearchFrom(Flatten(bs), t, start, last);
            && (r >= 0 ==> start <= r <= last && MatchesAt(Meaning(toks), t, r)
                           && forall k: nat | start <= k < r :: !MatchesAt(Meaning(toks), t, k))
            && (r == -1 ==> forall k: nat | start <= k <= last :: !MatchesAt(Meaning(toks), t, k))
            && (r == -2 ==> |t| - start + 1 >= MAX_POINTS)
  {
    hide Laid, Sound, Fine, JumpsFit, WfPattern, Parse, Flatten, SearchFrom, PatternMatches;
    CompiledIsReady(toks, bs);
    assert Linked(Flatten(bs)) by { LaidIsLinked(bs, Flatten(bs)); }
    SearchFindsFirst(bs, Flatten(bs), t, start, last);
    forall k: nat | k <= |t| ensures MatchesAt(bs, t, k) <==> MatchesAt(Meaning(toks), t, k) {
      forall e: nat
        ensures PatternMatches(bs, t, k, e) <==> PatternMatches(Meaning(toks), t, k, e)
      {
        UngroupedSame(bs, t, k, e);
      }
    }
  }

  lemma LaidIsLinked(bs: seq<Branch>, items: seq<Item>)
    requires Laid(bs, items)
    ensures Linked(items)
  {
  }

  // A range of starts where no match can start is skipped.
  lemma {:induction false} SearchSkips(bs: seq<Branch>, items: seq<Item>, t: Text, start: nat, next: nat, last: int)
    requires Laid(bs, items) && last <= |t| && start <= next <= last + 1
    requires forall k: nat | start <= k < next :: MissAt(TreePattern(bs), t, k)
    ensures SearchFrom(items, t, start, last) == SearchFrom(items, t, next, last)
    decreases next - start
  {
    if start < next {
      MissIsFailure(bs, items, t, start);
      SearchSkips(bs, items, t, start + 1, next, last);
    }
  }

  // A pattern that starts with \` matches only at the start of the text.
  lemma BufferStartOnly(items: seq<Item>, t: Text, pos: nat)
    requires Linked(items) && items != [] && items[0] == Term(Anchor(BegBuf)) && 0 < pos <= |t|
    ensures MatchResult(items, t, pos) == -1
  {
  }

  lemma {:induction false} BufferStartSearch(items: seq<Item>, t: Text, start: nat, last: int)
    requires Linked(items) && items != [] && items[0] == Term(Anchor(BegBuf)) && 0 < start && last <= |t|
    ensures SearchFrom(items, t, start, last) == -1
    decreases last + 1 - start
  {
    if start <= last {
      BufferStartOnly(items, t, start);
      BufferStartSearch(items, t, start + 1, last);
    }
  }

  // The byte that tells a pattern starting with \` apart.
  lemma BegBufOp(items: seq<Item>, code: seq<byte>)
    requires Compiled(items, code)
    ensures |code| > 0 && code[0] == BEGBUF <==> items != [] && items[0] == Term(Anchor(BegBuf))
  {
    hide Reads;
    if items != [] {
      FirstByte(items, code, 0);
      OpIsBegBuf(items[0]);
    }
  }

  lemma OpIsBegBuf(it: Item)
    ensures FirstOp(it) == BEGBUF <==> it == Term(Anchor(BegBuf))
  {
  }

  // Alternatives short enough to be jumped over, the last of them not empty.
  ghost predicate Searchable(bs: seq<Branch>) { WfPattern(bs) && JumpsFit(bs) && (|bs| == 1 || bs[|bs| - 1] != []) }

  lemma Explorable(bs: seq<Branch>) returns (need: nat -> nat)
    requires Searchable(bs)
    ensures var (code, n) := (PatternCode(bs), TreePattern(bs));
            && WfNode(n) && Flows(code, Starts(n, 0)) && NeedBounded(code, Starts(n, 0), need) && need(0) <= 2
            && (Explored(code, |code|) <==> NullOf(n)) && forall c: byte :: ExploredFirst(code, c) <==> c in FirstOf(n)
  {
    hide Code, Starts, Fits, NullOf, FirstOf, PatternCode, Explored, ExploredFirst, Structured, NeedBounded;
    need := PlainNeedsTwo(bs);
    PatternTree(bs);
    StructuredParts(PatternCode(bs), Starts(TreePattern(bs), 0));
    ExplorationIsFirst(TreePattern(bs));
  }

  // A re_pattern_buffer with its fastmap.
  class PatternBuffer {
    var buffer: array<byte>
    var used: nat
    var fastmap: array<bool>
    var fastmapAccurate: bool
    var canBeNull: bool

    ghost const branches: seq<Branch>
    ghost const items: seq<Item>

    ghost predicate Valid()
      reads this, buffer, fastmap
    {
      && used <= buffer.Length && fastmap.Length == 256
      && Laid(branches, items) && Searchable(branches) && Ready(items, buffer[..used])
      && (if fastmapAccurate then MapIsRight() else buffer[..used] == PatternCode(branches))
    }

    // What can_be_null and the fastmap have to say.
    ghost predicate MapIsRight()
      requires fastmap.Length == 256
      reads this, fastmap
    {
      && (canBeNull <==> NullOf(TreePattern(branches)))
      && (!canBeNull ==> forall c: byte :: fastmap[c] <==> c in FirstOf(TreePattern(branches)))
    }

    // A pattern as regex_compile leaves it; with alternatives, the last one is not empty.
    constructor (compiled: array<byte>, length: nat, ghost bs: seq<Branch>)
      requires length <= compiled.Length && Searchable(bs)
      requires compiled[..length] == PatternCode(bs) && Grounded(Flatten(bs))
      ensures Valid() && branches == bs && items == Flatten(bs) && buffer == compiled && fresh(fastmap)
    {
      buffer, used, fastmap, fastmapAccurate, canBeNull := compiled, length, new bool[256], false, false;
      branches, items := bs, Flatten(bs);
      new;
      LaidOut(bs);
      PatternIsItems(bs);
      FreshCodeIsCompiled(Flatten(bs));
    }

    // The inner loop: forward to a byte that can start a match, or to the last start.
    method SkipForward(text: Text, startpos: nat, range: nat) returns (skipped: nat)
      requires Valid() && fastmapAccurate && !canBeNull && startpos + range <= |text|
      ensures skipped <= range
      ensures forall k: nat | startpos <= k < startpos + skipped :: MissAt(TreePattern(branches), text, k)
    {
      skipped := 0;
      while skipped < range && !fastmap[text[startpos + skipped]]
        invariant skipped <= range
        invariant forall k: nat | startpos <= k < startpos + skipped :: MissAt(TreePattern(branches), text, k)
      {
        skipped := skipped + 1;
      }
    }

    method UpdateFastmap() returns (ok: bool)
      requires Valid()
      modifies this`fastmapAccurate, this`canBeNull, fastmap
      ensures ok && Valid() && fastmapAccurate
    {
      ok := true;
      if !fastmapAccurate {
        hide Laid, Ready, Searchable, Flows, NeedBounded, Explored, ExploredFirst, NullOf, FirstOf, PatternCode, Starts;
        ghost var need := Explorable(branches);
        ok, canBeNull := ReCompileFastmap(buffer, used, fastmap, Starts(TreePattern(branches), 0), need);
        fastmapAccurate := true;
      }
    }

    // From one start on: where re_match_2 is worth trying, if anywhere within range.
    method NextTry(text: Text, startpos: nat, range: nat) returns (at: nat, promising: bool)
      requires Valid() && fastmapAccurate && startpos + range <= |text|
      ensures startpos <= at <= startpos + range
      ensures SearchFrom(items, text, startpos, startpos + range) == SearchFrom(items, text, at, startpos + range)
      ensures !promising ==> SearchFrom(items, text, startpos, startpos + range) == -1
    {
      at, promising := startpos, true;
      if startpos < |text| && !canBeNull {
        if range > 0 {
          var skipped := SkipForward(text, startpos, range);
          at := startpos + skipped;
          SearchSkips(branches, items, text, startpos, at, startpos + range);
        } else if !fastmap[text[startpos]] {
          MissIsFailure(branches, items, text, startpos);
          promising := false;
        }
      }
      if at == |text| && !canBeNull {
        MissIsFailure(branches, items, text, at);
        promising := false;
      }
    }

    /** re_search_2 with one string, forward. */
    method ReSearch(text: Text, start: int, span: nat) returns (r: int)
      requires Valid()
      modifies this`fastmapAccurate, this`canBeNull, buffer, fastmap
      ensures Valid()
      ensures r == if 0 <= start <= |text|
                   then SearchFrom(items, text, start, if start + span <= |text| then start + span else |text|)
                   else -1
    {
      hide Laid, Searchable, MatchResult, Compiled, Linked, Grounded, PatternCode;
      if start < 0 || start > |text| { return -1; }
      var startpos: nat, range: nat := start, span;
      if startpos + range > |text| { range := |text| - startpos; }
      ghost var last := startpos + range;
      BegBufOp(items, buffer[..used]);
      if used > 0 && buffer[0] == BEGBUF && range > 0 {
        BufferStartSearch(items, text, if startpos > 0 then startpos else 1, last);
        BufferStartSearch(items, text, if startpos > 0 then startpos else 1, 1);
        if startpos > 0 { return -1; }
        range := 1;
      }
      var ok := UpdateFastmap();
      if !ok { return -2; }
      while true
        invariant Valid() && fastmapAccurate && startpos + range <= |text|
        invariant SearchFrom(items, text, start, last) == SearchFrom(items, text, startpos, startpos + range)
        decreases range
      {
        var at, promising := NextTry(text, startpos, range);
        if !promising { return -1; }
        range := range - (at - startpos);
        startpos := at;
        var val := ReMatch2(buffer, used, text, startpos, items);
        if val >= 0 { return startpos; }
        if val == -2 { return -2; }
        if range == 0 { return -1; }
        range, startpos := range - 1, startpos + 1;
      }
    }
  }
}
