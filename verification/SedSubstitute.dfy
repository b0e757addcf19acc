/**
 The `s` command: how its options are compiled, and the scanning loop over a newline-terminated pattern
 space, with re_search as an oracle.
 */
module SedSubstitute {

  type Text = seq<char>

  // A span of the text; (-1, -1) for a group that took no part in the match.
  datatype Span = Span(start: int, end: int)

  // The registers of a match, register 0 being the match itself.
  datatype Match = Match(whole: Span, groups: seq<Span>)

  datatype Search = NotFound | FoundAt(regs: Match)

  predicate SpanIn(s: Span, size: nat) { (s.start == -1 && s.end == -1) || 0 <= s.start <= s.end <= size }

  // What re_search promises: from a start within the line, a match that lies between it and the end.
  ghost predicate Honest(find: nat -> Search, size: nat) {
    forall start: nat :: find(start).FoundAt? ==> start <= size && MatchIn(find(start).regs, start, size)
  }

  ghost predicate MatchIn(m: Match, start: nat, size: nat) {
    && start <= m.whole.start <= m.whole.end <= size
    && |m.groups| == 9 && forall k | 0 <= k < 9 :: SpanIn(m.groups[k], size)
  }

  function SpanText(text: Text, s: Span): Text
    requires SpanIn(s, |text|)
  {
    if s.start == -1 then [] else text[s.start..s.end]
  }

  function Register(m: Match, n: nat): Span
    requires n <= 9 && |m.groups| == 9
  {
    if n == 0 then m.whole else m.groups[n - 1]
  }

  predicate IsDigit(c: char) { '0' <= c <= '9' }

  // ---------- The options ----------

  // What is compiled: the bits, and the number.
  datatype Flags = Flags(global: bool, num: bool, printed: bool, write: bool, numb: nat)

  datatype BadOption = MultipleP | MultipleG | MultipleNumbers | UnknownOption

  datatype Options = Compiled(flags: Flags) | Bad(error: BadOption)

  // What ends the options: `w` takes the rest of the line as a file name.
  predicate Ends(c: char) { c == '\n' || c == ';' || c == 'w' }

  // The options before the end.
  function Given(s: Text): Text { if s == [] || Ends(s[0]) then [] else [s[0]] + Given(s[1..]) }

  predicate AllDigits(s: Text, i: nat, j: nat) { i <= j <= |s| && forall k | i <= k < j :: IsDigit(s[k]) }

  // A number begins at i.
  predicate NumberAt(s: Text, i: nat) { i < |s| && IsDigit(s[i]) && (i == 0 || !IsDigit(s[i - 1])) }

  // What the digits of s amount to.
  function Value(s: Text): nat
    requires forall k | 0 <= k < |s| :: IsDigit(s[k])
  {
    if s == [] then 0
    else
      assert IsDigit(s[|s| - 1]);
      Value(s[..|s| - 1]) * 10 + (s[|s| - 1] - '0') as nat
  }

  function DigitsEnd(s: Text, i: nat): (j: nat)
    requires i <= |s|
    ensures AllDigits(s, i, j) && (j < |s| ==> !IsDigit(s[j]))
    decreases |s| - i
  {
    if i < |s| && IsDigit(s[i]) then DigitsEnd(s, i + 1) else i
  }

  // The last number given, 0 if there is none.
  function LastNumber(s: Text, n: nat): nat
    requires n <= |s|
  {
    if n == 0 then 0
    else if NumberAt(s, n - 1) then Value(s[n - 1..DigitsEnd(s, n - 1)]) else LastNumber(s, n - 1)
  }

  predicate Has(s: Text, n: nat, c: char) { n <= |s| && exists k :: 0 <= k < n && s[k] == c }

  predicate HasNumber(s: Text, n: nat) { n <= |s| && exists k: nat :: k < n && NumberAt(s, k) }

  // Option k is acceptable after those before it: known, not a second `p` or `g`, and not a second number
  // unless a `g` has been given before it.
  predicate Acceptable(s: Text, k: nat)
    requires k < |s|
  {
    && (s[k] == 'p' || s[k] == 'g' || IsDigit(s[k]))
    && (s[k] == 'p' || s[k] == 'g' ==> !Has(s, k, s[k]))
    && (NumberAt(s, k) && HasNumber(s, k) ==> Has(s, k, 'g'))
  }

  // The bits after the first n options: `g` overrides a number, whichever comes first.
  ghost predicate BitsAre(s: Text, n: nat, f: Flags)
    requires n <= |s|
  {
    && (f.global <==> Has(s, n, 'g')) && (f.printed <==> Has(s, n, 'p'))
    && (f.num <==> HasNumber(s, n) && !Has(s, n, 'g'))
    && f.numb == LastNumber(s, n)
  }

  lemma {:induction false} GivenIs(s: Text)
    ensures |Given(s)| <= |s| && Given(s) == s[..|Given(s)|] && (|Given(s)| < |s| ==> Ends(s[|Given(s)|]))
    ensures forall k | 0 <= k < |Given(s)| :: !Ends(s[k])
    decreases |s|
  {
    if s != [] && !Ends(s[0]) {
      GivenIs(s[1..]);
      forall k | 0 <= k < |Given(s)| ensures !Ends(s[k]) && Given(s)[k] == s[k] {
        if k > 0 { assert s[k] == s[1..][k - 1] == Given(s[1..])[k - 1]; }
      }
    }
  }

  lemma {:induction false} DigitsEndIs(s: Text, i: nat, j: nat)
    requires AllDigits(s, i, j) && (j < |s| ==> !IsDigit(s[j]))
    ensures DigitsEnd(s, i) == j
    decreases j - i
  {
    if i < j { DigitsEndIs(s, i + 1, j); }
  }

  // Further digits of the same number.
  lemma {:induction false} DigitsKeep(s: Text, i: nat, j: nat)
    requires AllDigits(s, i, j) && i < j && NumberAt(s, i)
    ensures HasNumber(s, j) && LastNumber(s, j) == LastNumber(s, i + 1)
    ensures Has(s, j, 'g') <==> Has(s, i, 'g')
    ensures Has(s, j, 'p') <==> Has(s, i, 'p')
    ensures forall k | i < k < j :: Acceptable(s, k)
    decreases j
  {
    if i + 1 < j {
      DigitsKeep(s, i, j - 1);
      assert IsDigit(s[j - 2]) && IsDigit(s[j - 1]);
    }
    forall k | i < k < j ensures Acceptable(s, k) { assert IsDigit(s[k - 1]) && IsDigit(s[k]); }
  }

  // The digits from i on.
  method ReadNumber(s: Text, i: nat) returns (j: nat, num: nat)
    requires i < |s| && IsDigit(s[i])
    ensures i < j && AllDigits(s, i, j) && (j < |s| ==> !IsDigit(s[j])) && num == Value(s[i..j])
  {
    j, num := i, 0;
    while j < |s| && IsDigit(s[j])
      invariant AllDigits(s, i, j) && num == Value(s[i..j]) && (j == i ==> IsDigit(s[i]))
    {
      assert s[i..j + 1][..j - i] == s[i..j];
      num := num * 10 + (s[j] - '0') as nat;
      j := j + 1;
    }
  }

  // One letter.
  lemma LetterBits(s: Text, i: nat, f: Flags)
    requires i < |s| && BitsAre(s, i, f) && (s[i] == 'p' || s[i] == 'g')
    ensures BitsAre(s, i + 1, if s[i] == 'p' then f.(printed := true) else f.(global := true, num := false))
  {
    assert !NumberAt(s, i);
    assert Has(s, i + 1, s[i]);
    forall c: char | c != s[i] && Has(s, i + 1, c) ensures Has(s, i, c) { }
  }

  lemma NumberBits(s: Text, i: nat, j: nat, f: Flags)
    requires NumberAt(s, i) && BitsAre(s, i, f) && AllDigits(s, i, j) && i < j && (j < |s| ==> !IsDigit(s[j]))
    ensures BitsAre(s, j, f.(num := f.num || !f.global, numb := Value(s[i..j])))
    ensures forall k | i < k < j :: Acceptable(s, k)
  {
    DigitsKeep(s, i, j);
    DigitsEndIs(s, i, j);
  }

  lemma NoBits(s: Text)
    ensures BitsAre(s, 0, Flags(false, false, false, false, 0))
  {
  }

  ghost predicate FirstBad(s: Text, k: nat) {
    k < |s| && !Acceptable(s, k) && forall m | 0 <= m < k :: Acceptable(s, m)
  }

  // The bits tell whether the next option is acceptable.
  lemma AcceptableIs(s: Text, i: nat, f: Flags)
    requires i < |s| && BitsAre(s, i, f) && (i > 0 && IsDigit(s[i]) ==> !IsDigit(s[i - 1]))
    ensures s[i] == 'p' ==> (Acceptable(s, i) <==> !f.printed)
    ensures s[i] == 'g' ==> (Acceptable(s, i) <==> !f.global)
    ensures IsDigit(s[i]) ==> NumberAt(s, i) && (Acceptable(s, i) <==> !f.num)
    ensures s[i] != 'p' && s[i] != 'g' && !IsDigit(s[i]) ==> !Acceptable(s, i)
  {
  }

  /** The options of `s`: they are accepted exactly if each is acceptable after those before it; `3g` and `g3`
      both leave just the bit for all matches, and the two bits are never set together. */
  method CompileFlags(s: Text) returns (r: Options)
    ensures r.Compiled? <==> forall k | 0 <= k < |Given(s)| :: Acceptable(Given(s), k)
    ensures r.Compiled? ==> BitsAre(Given(s), |Given(s)|, r.flags) && !(r.flags.global && r.flags.num)
    ensures r.Compiled? ==> (r.flags.write <==> |Given(s)| < |s| && s[|Given(s)|] == 'w')
    ensures r.Bad? ==>
              exists k: nat :: k < |Given(s)| && FirstBad(Given(s), k)
                               && match r.error
                                  case MultipleP => Given(s)[k] == 'p'
                                  case MultipleG => Given(s)[k] == 'g'
                                  case MultipleNumbers => IsDigit(Given(s)[k])
                                  case UnknownOption => Given(s)[k] !in "pg0123456789"
  {
    hide Acceptable, LastNumber, Value, DigitsEnd, Has, HasNumber;
    ghost var opts := Given(s);
    GivenIs(s);
    var f := Flags(false, false, false, false, 0);
    var i: nat := 0;
    NoBits(opts);
    while i < |s| && !Ends(s[i])
      invariant i <= |opts| && BitsAre(opts, i, f) && !f.write
      invariant (0 < i < |opts| && IsDigit(opts[i]) ==> !IsDigit(opts[i - 1]))
      invariant forall k | 0 <= k < i :: Acceptable(opts, k)
    {
      assert i < |opts| && s[i] == opts[i];
      AcceptableIs(opts, i, f);
      if s[i] == 'p' {
        if f.printed { assert FirstBad(opts, i); return Bad(MultipleP); }
        LetterBits(opts, i, f);
        f := f.(printed := true);
        i := i + 1;
      } else if s[i] == 'g' {
        if f.global { assert FirstBad(opts, i); }
        LetterBits(opts, i, f);
        if f.num { f := f.(num := false); }
        if f.global { return Bad(MultipleG); }
        f := f.(global := true);
        i := i + 1;
      } else if IsDigit(s[i]) {
        if f.num { assert FirstBad(opts, i); return Bad(MultipleNumbers); }
        var num := !f.global;
        var j, value := ReadNumber(s, i);
        NumberInside(s, opts, i, j);
        NumberBits(opts, i, j, f);
        f := f.(num := num, numb := value);
        i := j;
      } else {
        assert FirstBad(opts, i);
        return Bad(UnknownOption);
      }
    }
    if i < |s| && s[i] == 'w' { f := f.(write := true); }
    r := Compiled(f);
  }

  /** The options as a whole are acceptable exactly if all are known, `p` and `g` stand there at most once, and
      of any two numbers the second one comes after a `g`. */
  lemma AllAcceptable(s: Text)
    ensures (forall k | 0 <= k < |s| :: Acceptable(s, k)) <==>
            && (forall k | 0 <= k < |s| :: s[k] in "pg0123456789")
            && (forall j, k | 0 <= j < k < |s| && s[j] == s[k] :: s[k] != 'p' && s[k] != 'g')
            && (forall j, k: nat | 0 <= j < k < |s| && NumberAt(s, j) && NumberAt(s, k) ::
                  exists i :: 0 <= i < k && s[i] == 'g')
  {
    if forall k | 0 <= k < |s| :: Acceptable(s, k) {
      forall k | 0 <= k < |s| ensures s[k] in "pg0123456789" {
        assert Acceptable(s, k);
        OptionIs(s[k]);
      }
      forall j, k | 0 <= j < k < |s| && s[j] == s[k] ensures s[k] != 'p' && s[k] != 'g' {
        assert Acceptable(s, k) && Has(s, k, s[k]);
      }
      forall j, k: nat | 0 <= j < k < |s| && NumberAt(s, j) && NumberAt(s, k)
        ensures exists i :: 0 <= i < k && s[i] == 'g'
      {
        assert Acceptable(s, k) && HasNumber(s, k);
      }
    } else {
      var k :| 0 <= k < |s| && !Acceptable(s, k);
      OptionIs(s[k]);
    }
  }

  lemma OptionIs(c: char)
    ensures c in "pg0123456789" <==> c == 'p' || c == 'g' || IsDigit(c)
  {
    DigitIs(c);
    assert "pg0123456789" == "pg" + "0123456789";
  }

  lemma DigitIs(c: char)
    ensures IsDigit(c) <==> c in "0123456789"
  {
    var digits := "0123456789";
    if IsDigit(c) {
      assert c == digits[(c - '0') as int];
    }
  }

  // n in decimal notation, after some zeros.
  function Decimal(n: nat, zeros: nat): (s: Text)
    ensures forall k | 0 <= k < |s| :: IsDigit(s[k])
    decreases n, zeros
  {
    if n >= 10 then Decimal(n / 10, zeros) + ["0123456789"[n % 10]]
    else if zeros > 0 then "0" + Decimal(n, zeros - 1)
    else ["0123456789"[n]]
  }

  /** A number is read as decimal. */
  lemma {:induction false} DecimalValue(n: nat, zeros: nat)
    ensures Value(Decimal(n, zeros)) == n
    decreases n, zeros
  {
    var s := Decimal(n, zeros);
    if n >= 10 {
      DecimalValue(n / 10, zeros);
      assert s[..|s| - 1] == Decimal(n / 10, zeros) && s[|s| - 1] == "0123456789"[n % 10];
      DigitValue(n % 10);
    } else if zeros > 0 {
      DecimalValue(n, zeros - 1);
      ZeroInFront(Decimal(n, zeros - 1));
    } else {
      assert s[..0] == [];
      DigitValue(n);
    }
  }

  lemma DigitValue(n: nat)
    requires n < 10
    ensures IsDigit("0123456789"[n]) && ("0123456789"[n] - '0') as nat == n
  {
  }

  lemma {:induction false} ZeroInFront(s: Text)
    requires forall k | 0 <= k < |s| :: IsDigit(s[k])
    ensures Value("0" + s) == Value(s)
    decreases |s|
  {
    var t := "0" + s;
    if s == [] {
      assert t[..0] == [];
    } else {
      assert t[..|t| - 1] == "0" + s[..|s| - 1] && t[|t| - 1] == s[|s| - 1];
      ZeroInFront(s[..|s| - 1]);
    }
  }

  // Digits do not go beyond the options.
  lemma NumberInside(s: Text, opts: Text, i: nat, j: nat)
    requires |opts| <= |s| && opts == s[..|opts|] && (|opts| < |s| ==> Ends(s[|opts|]))
    requires i < |opts| && i < j && AllDigits(s, i, j) && (j < |s| ==> !IsDigit(s[j]))
    ensures j <= |opts| && AllDigits(opts, i, j) && (j < |opts| ==> !IsDigit(opts[j])) && opts[i..j] == s[i..j]
  {
    assert |opts| < |s| ==> !IsDigit(s[|opts|]);
  }

  // ---------- The replacement ----------

  // `&` is the match, `\n` a group, any other escaped character itself; a final lone `\` is nothing.
  ghost function Expand(rep: Text, text: Text, m: Match): Text
    requires MatchIn(m, 0, |text|)
  {
    if rep == [] then []
    else if rep[0] == '&' then SpanText(text, m.whole) + Expand(rep[1..], text, m)
    else if rep[0] != '\\' then [rep[0]] + Expand(rep[1..], text, m)
    else if |rep| == 1 then []
    else
      (if IsDigit(rep[1]) then SpanText(text, Register(m, (rep[1] - '0') as nat)) else [rep[1]])
      + Expand(rep[2..], text, m)
  }

  lemma {:induction false} ExpandPlain(rep: Text, text: Text, m: Match, n: nat)
    requires MatchIn(m, 0, |text|) && n <= |rep| && forall k | 0 <= k < n :: rep[k] != '&' && rep[k] != '\\'
    ensures Expand(rep, text, m) == rep[..n] + Expand(rep[n..], text, m)
    decreases n
  {
    if n > 0 {
      ExpandPlain(rep[1..], text, m, n - 1);
      assert rep[..n] == [rep[0]] + rep[1..][..n - 1] && rep[1..][n - 1..] == rep[n..];
    }
  }

  // One special character of the replacement, after a stretch of n plain ones.
  lemma ExpandSpecial(rep: Text, text: Text, m: Match, cur: nat, next: nat)
    requires MatchIn(m, 0, |text|) && cur <= next < |rep|
    requires forall k | cur <= k < next :: rep[k] != '&' && rep[k] != '\\'
    ensures rep[next] == '&' ==>
              Expand(rep[cur..], text, m) == rep[cur..next] + SpanText(text, m.whole) + Expand(rep[next + 1..], text, m)
    ensures rep[next] == '\\' && next + 1 == |rep| ==> Expand(rep[cur..], text, m) == rep[cur..next]
    ensures rep[next] == '\\' && next + 1 < |rep| ==>
              Expand(rep[cur..], text, m) ==
              rep[cur..next]
              + (if IsDigit(rep[next + 1]) then SpanText(text, Register(m, (rep[next + 1] - '0') as nat))
                 else [rep[next + 1]])
              + Expand(rep[next + 2..], text, m)
  {
    ExpandPlain(rep[cur..], text, m, next - cur);
    assert rep[cur..][..next - cur] == rep[cur..next] && rep[cur..][next - cur..] == rep[next..];
    assert rep[next..][1..] == rep[next + 1..] && (next + 1 < |rep| ==> rep[next..][2..] == rep[next + 2..]);
  }

  /** `\0` to `\9` in a replacement: the whole match, or what the group of that number matched, nothing if it took
      no part; `\` before any other character is that character. */
  lemma EscapeMeans(c: char, text: Text, m: Match)
    requires MatchIn(m, 0, |text|)
    ensures c == '0' ==> Expand(['\\', c], text, m) == text[m.whole.start..m.whole.end]
    ensures forall n | 1 <= n <= 9 && c == "0123456789"[n] ::
              Expand(['\\', c], text, m) ==
              if m.groups[n - 1] == Span(-1, -1) then [] else text[m.groups[n - 1].start..m.groups[n - 1].end]
    ensures c !in "0123456789" ==> Expand(['\\', c], text, m) == [c]
  {
    DigitIs(c);
    var rep := ['\\', c];
    assert rep[2..] == [];
    assert Expand(rep, text, m) == (if IsDigit(c) then SpanText(text, Register(m, (c - '0') as nat)) else [c]) + [];
    forall n | 1 <= n <= 9 && c == "0123456789"[n] ensures (c - '0') as nat == n { DigitValue(n); }
  }

  // What the replacement from cur on expands to; beyond its end, nothing.
  ghost function ExpandFrom(rep: Text, text: Text, m: Match, cur: nat): Text
    requires MatchIn(m, 0, |text|)
  {
    if cur <= |rep| then Expand(rep[cur..], text, m) else []
  }

  // What an escape stands for.
  method Escaped(rep: Text, text: Text, m: Match, at: nat) returns (piece: Text)
    requires MatchIn(m, 0, |text|) && at < |rep|
    ensures piece == if IsDigit(rep[at]) then SpanText(text, Register(m, (rep[at] - '0') as nat)) else [rep[at]]
  {
    if '0' <= rep[at] <= '9' {
      var n := (rep[at] - '0') as nat;
      var span := if n == 0 then m.whole else m.groups[n - 1];
      piece := [];
      if span.start != -1 { piece := text[span.start..span.end]; }
    } else {
      piece := [rep[at]];
    }
  }

  // A special character at next: the stretch before it, and what it stands for.
  method ExpandOne(rep: Text, text: Text, m: Match, cur: nat, next: nat) returns (piece: Text, after: nat)
    requires MatchIn(m, 0, |text|) && cur <= next < |rep| && (rep[next] == '&' || rep[next] == '\\')
    requires forall k | cur <= k < next :: rep[k] != '&' && rep[k] != '\\'
    ensures next < after <= |rep| + 1 && ExpandFrom(rep, text, m, cur) == piece + ExpandFrom(rep, text, m, after)
  {
    hide Expand, SpanText, Register;
    ExpandSpecial(rep, text, m, cur, next);
    piece := [];
    if next - cur > 0 { piece := piece + rep[cur..next]; }
    if rep[next] == '&' {
      piece := piece + text[m.whole.start..m.whole.end];
      after := next + 1;
      assert SpanText(text, m.whole) == text[m.whole.start..m.whole.end] by { WholeText(text, m); }
    } else {
      after := next + 2;
      if next + 1 != |rep| {
        var more := Escaped(rep, text, m, next + 1);
        piece := piece + more;
      }
    }
  }

  lemma WholeText(text: Text, m: Match)
    requires MatchIn(m, 0, |text|)
    ensures SpanText(text, m.whole) == text[m.whole.start..m.whole.end]
  {
  }

  // The loop over the replacement, which copies it in stretches.
  method ExpandReplacement(rep: Text, text: Text, m: Match) returns (out: Text)
    requires MatchIn(m, 0, |text|)
    ensures out == Expand(rep, text, m)
  {
    out := [];
    var repCur: nat, repNext: nat := 0, 0;
    assert rep[0..] == rep;
    hide Expand, ExpandFrom, MatchIn;
    ExpandEnds(rep, text, m, 0);
    while repNext < |rep|
      invariant repCur <= repNext <= |rep| + 1 && (repNext == |rep| + 1 ==> repCur == repNext)
      invariant forall k | repCur <= k < repNext :: rep[k] != '&' && rep[k] != '\\'
      invariant out + ExpandFrom(rep, text, m, repCur) == Expand(rep, text, m)
      decreases |rep| + 1 - repNext
    {
      if rep[repNext] == '&' || rep[repNext] == '\\' {
        var piece, after := ExpandOne(rep, text, m, repCur, repNext);
        Joined(out, piece, ExpandFrom(rep, text, m, after));
        out := out + piece;
        repCur, repNext := after, after;
      } else {
        repNext := repNext + 1;
      }
    }
    ExpandEnds(rep, text, m, repCur);
    if repNext - repCur > 0 { out := out + rep[repCur..repNext]; }
  }

  lemma Joined(x: Text, y: Text, z: Text)
    ensures x + (y + z) == (x + y) + z
  {
  }

  lemma ExpandEnds(rep: Text, text: Text, m: Match, cur: nat)
    requires MatchIn(m, 0, |text|) && cur <= |rep| + 1
    ensures cur == 0 ==> [] + ExpandFrom(rep, text, m, cur) == Expand(rep, text, m)
    ensures (forall k | cur <= k < |rep| :: rep[k] != '&' && rep[k] != '\\') ==>
              ExpandFrom(rep, text, m, cur) == if cur < |rep| then rep[cur..|rep|] else []
  {
    assert rep[0..] == rep;
    if cur <= |rep| && forall k | cur <= k < |rep| :: rep[k] != '&' && rep[k] != '\\' {
      ExpandPlain(rep[cur..], text, m, |rep| - cur);
      ExpandNothing(text, m);
      assert rep[cur..][|rep| - cur..] == [] && rep[cur..][..|rep| - cur] == rep[cur..];
    }
  }

  lemma ExpandNothing(text: Text, m: Match)
    requires MatchIn(m, 0, |text|)
    ensures Expand([], text, m) == []
  {
  }

  // ---------- All matches of a line, and the line rebuilt from them ----------

  // Where the scan goes on: after an empty match, one character is passed over.
  function After(m: Match): int { if m.whole.end == m.whole.start then m.whole.end + 1 else m.whole.end }

  ghost function Matches(find: nat -> Search, size: nat, start: nat): seq<Match>
    requires Honest(find, size)
    decreases size + 1 - start
  {
    if start > size || find(start).NotFound? then []
    else [find(start).regs] + Matches(find, size, After(find(start).regs))
  }

  // Matches from `start` on, in order and apart.
  ghost predicate Apart(ms: seq<Match>, start: int, size: nat) {
    ms != [] ==> start >= 0 && MatchIn(ms[0], start, size) && Apart(ms[1..], After(ms[0]), size)
  }

  lemma {:induction false} MatchesApart(find: nat -> Search, size: nat, start: nat)
    requires Honest(find, size)
    ensures Apart(Matches(find, size, start), start, size)
    decreases size + 1 - start
  {
    if start <= size && find(start).FoundAt? {
      MatchesApart(find, size, After(find(start).regs));
      assert Matches(find, size, start)[1..] == Matches(find, size, After(find(start).regs));
    }
  }

  /** The first search is made at the start; after a match that is not empty the next one is made at its end, after
      an empty one a character further on; and the last search fails or would start behind the line. */
  lemma {:induction false} SearchedInTurn(find: nat -> Search, size: nat, start: nat, k: nat)
    requires Honest(find, size) && k <= |Matches(find, size, start)|
    ensures var ms := Matches(find, size, start);
            var at := if k == 0 then start
                      else if ms[k - 1].whole.end > ms[k - 1].whole.start then ms[k - 1].whole.end
                      else ms[k - 1].whole.end + 1;
            at >= 0 && if k < |ms| then at <= size && find(at) == FoundAt(ms[k]) else at > size || find(at).NotFound?
    decreases k
  {
    if k > 0 {
      SearchedInTurn(find, size, After(find(start).regs), k - 1);
      assert Matches(find, size, start)[1..] == Matches(find, size, After(find(start).regs));
    }
  }

  // Which matches are replaced: with the number bit, the numbered one (there is no match 0); otherwise all
  // of them or the first one.
  predicate Picked(f: Flags, j: nat) { if f.num then j + 1 == f.numb else f.global || j == 0 }

  // The text from start on, with picked matches replaced and everything else as it was; j matches
  // have gone before.
  ghost function Rebuilt(text: Text, start: nat, ms: seq<Match>, j: nat, rep: Text, f: Flags): Text
    requires |text| > 0 && start <= |text| && Apart(ms, start, |text| - 1)
    decreases |ms|
  {
    if ms == [] then text[start..]
    else
      var (m, next) := (ms[0], After(ms[0]));
      text[start..m.whole.start]
      + (if Picked(f, j) then Expand(rep, text, m) else text[m.whole.start..m.whole.end])
      + text[m.whole.end..next]
      + Rebuilt(text, next, ms[1..], j + 1, rep, f)
  }

  /** With the replacement `&`, or wherever nothing is picked, the line stays what it was. */
  lemma {:induction false} RebuiltIsIdentity(text: Text, start: nat, ms: seq<Match>, j: nat, rep: Text, f: Flags)
    requires |text| > 0 && start <= |text| && Apart(ms, start, |text| - 1)
    requires rep == "&" || forall k: nat | j <= k < j + |ms| :: !Picked(f, k)
    ensures Rebuilt(text, start, ms, j, rep, f) == text[start..]
    decreases |ms|
  {
    if ms != [] {
      var (m, next) := (ms[0], After(ms[0]));
      RebuiltIsIdentity(text, next, ms[1..], j + 1, rep, f);
      if rep == "&" { AmpersandIsMatch(text, m); }
      assert text[start..]
             == text[start..m.whole.start] + text[m.whole.start..m.whole.end] + text[m.whole.end..next] + text[next..];
    }
  }

  lemma RebuiltStep(text: Text, start: nat, ms: seq<Match>, j: nat, rep: Text, f: Flags)
    requires |text| > 0 && start <= |text| && Apart(ms, start, |text| - 1) && ms != []
    ensures var (m, next) := (ms[0], After(ms[0]));
            && start <= m.whole.start <= m.whole.end <= next <= |text| && Apart(ms[1..], next, |text| - 1)
            && Rebuilt(text, start, ms, j, rep, f) ==
               text[start..m.whole.start]
               + (if Picked(f, j) then Expand(rep, text, m) else text[m.whole.start..m.whole.end])
               + text[m.whole.end..next]
               + Rebuilt(text, next, ms[1..], j + 1, rep, f)
  {
  }

  lemma {:induction false} ApartAt(ms: seq<Match>, start: int, size: nat, k: nat)
    requires Apart(ms, start, size) && k < |ms|
    ensures start >= 0 && MatchIn(ms[k], start, size)
    decreases k
  {
    if k > 0 { ApartAt(ms[1..], After(ms[0]), size, k - 1); }
  }

  // Match k alone is picked.
  lemma {:induction false} OnlyReplaced(text: Text, start: nat, ms: seq<Match>, j: nat, rep: Text, f: Flags, k: nat)
    requires |text| > 0 && start <= |text| && Apart(ms, start, |text| - 1) && k < |ms|
    requires forall i: nat | j <= i < j + |ms| :: Picked(f, i) <==> i == j + k
    ensures MatchIn(ms[k], start, |text| - 1)
    ensures Rebuilt(text, start, ms, j, rep, f) ==
            text[start..ms[k].whole.start] + Expand(rep, text, ms[k]) + text[ms[k].whole.end..]
    decreases |ms|
  {
    hide Expand, Rebuilt, After;
    ApartAt(ms, start, |text| - 1, k);
    ApartAt(ms, start, |text| - 1, 0);
    RebuiltStep(text, start, ms, j, rep, f);
    var (m, next) := (ms[0], After(ms[0]));
    if k == 0 {
      RebuiltIsIdentity(text, next, ms[1..], j + 1, rep, f);
      Behind(text, text[start..m.whole.start], Expand(rep, text, m), m.whole.end, next);
    } else {
      OnlyReplaced(text, next, ms[1..], j + 1, rep, f, k - 1);
      ApartAt(ms[1..], next, |text| - 1, k - 1);
      InFront(text, start, m.whole.start, m.whole.end, next, ms[k].whole.start, Expand(rep, text, ms[k]),
              text[ms[k].whole.end..]);
    }
  }

  /** Without `g` one match only is changed: the line is the text before it, the replacement, and the text
      after it. If there is no such match - with the number 0 there never is - the line stays what it was. */
  lemma OneIsReplaced(text: Text, ms: seq<Match>, rep: Text, f: Flags)
    requires |text| > 0 && Apart(ms, 0, |text| - 1) && !f.global
    ensures var k := if f.num then f.numb - 1 else 0;
            if 0 <= k < |ms|
            then MatchIn(ms[k], 0, |text| - 1)
                 && Rebuilt(text, 0, ms, 0, rep, f)
                    == text[..ms[k].whole.start] + Expand(rep, text, ms[k]) + text[ms[k].whole.end..]
            else Rebuilt(text, 0, ms, 0, rep, f) == text
  {
    var k := if f.num then f.numb - 1 else 0;
    if 0 <= k < |ms| {
      OnlyReplaced(text, 0, ms, 0, rep, f, k);
      assert text[0..ms[k].whole.start] == text[..ms[k].whole.start];
    } else {
      RebuiltIsIdentity(text, 0, ms, 0, rep, f);
    }
  }

  // What lies between the matches, and the replacement for each of them, in turn.
  ghost function Woven(text: Text, from: nat, ms: seq<Match>, rep: Text): Text
    decreases |ms|
  {
    if from > |text| then []
    else if ms == [] then text[from..]
    else if !(MatchIn(ms[0], from, |text|)) then []
    else text[from..ms[0].whole.start] + Expand(rep, text, ms[0]) + Woven(text, ms[0].whole.end, ms[1..], rep)
  }

  /** With `g` every match is replaced, and all text between matches stays. */
  lemma AllReplaced(text: Text, ms: seq<Match>, rep: Text, f: Flags)
    requires |text| > 0 && Apart(ms, 0, |text| - 1) && f.global && !f.num
    ensures Rebuilt(text, 0, ms, 0, rep, f) == Woven(text, 0, ms, rep)
  {
    WovenFrom(text, 0, 0, ms, 0, rep, f);
    assert text[0..0] == [];
  }

  lemma {:induction false} WovenFrom(text: Text, from: nat, start: nat, ms: seq<Match>, j: nat, rep: Text, f: Flags)
    requires |text| > 0 && from <= start <= |text| && Apart(ms, start, |text| - 1) && f.global && !f.num
    ensures text[from..start] + Rebuilt(text, start, ms, j, rep, f) == Woven(text, from, ms, rep)
    decreases |ms|
  {
    hide Expand, After, Rebuilt;
    if ms == [] {
      assert Rebuilt(text, start, ms, j, rep, f) == text[start..] by { RebuiltIsIdentity(text, start, ms, j, rep, f); }
      assert text[from..] == text[from..start] + text[start..];
    } else {
      RebuiltStep(text, start, ms, j, rep, f);
      var (m, next) := (ms[0], After(ms[0]));
      WovenFrom(text, m.whole.end, next, ms[1..], j + 1, rep, f);
      Between(text, from, start, m.whole.start, Expand(rep, text, m), text[m.whole.end..next],
              Rebuilt(text, next, ms[1..], j + 1, rep, f));
    }
  }

  lemma Between(text: Text, a: nat, b: nat, c: nat, x: Text, y: Text, z: Text)
    requires a <= b <= c <= |text|
    ensures text[a..b] + (text[b..c] + x + y + z) == text[a..c] + x + (y + z)
  {
    assert text[a..c] == text[a..b] + text[b..c];
  }

  lemma Behind(text: Text, x: Text, y: Text, c: nat, d: nat)
    requires c <= d <= |text|
    ensures x + y + text[c..d] + text[d..] == x + y + text[c..]
  {
    assert text[c..] == text[c..d] + text[d..];
  }

  lemma InFront(text: Text, a: nat, b: nat, c: nat, d: nat, e: nat, x: Text, y: Text)
    requires a <= b <= c <= d <= e <= |text|
    ensures text[a..b] + text[b..c] + text[c..d] + (text[d..e] + x + y) == text[a..e] + x + y
  {
    assert text[a..e] == text[a..b] + text[b..c] + text[c..d] + text[d..e];
  }

  lemma AmpersandIsMatch(text: Text, m: Match)
    requires MatchIn(m, 0, |text|)
    ensures Expand("&", text, m) == text[m.whole.start..m.whole.end]
  {
    assert "&"[1..] == "";
  }

  // A match that is not the numbered one is copied, with the text before it.
  method CopyMatch(text: Text, start: nat, m: Match) returns (piece: Text, next: nat)
    requires |text| > 0 && MatchIn(m, start, |text| - 1)
    ensures start < next == After(m) <= |text|
    ensures piece == text[start..m.whole.start] + text[m.whole.start..m.whole.end] + text[m.whole.end..next]
  {
    piece := text[start..m.whole.start];
    var matched := m.whole.end - m.whole.start;
    if matched == 0 { matched := 1; }
    piece := piece + text[m.whole.start..m.whole.start + matched];
    next := if m.whole.start == m.whole.end then m.whole.start + 1 else m.whole.end;
  }

  // A match is replaced, after the text before it; an empty match takes the character after it along.
  method ReplaceMatch(text: Text, start: nat, m: Match, rep: Text) returns (piece: Text, next: nat)
    requires |text| > 0 && MatchIn(m, start, |text| - 1)
    ensures start < next == After(m) <= |text|
    ensures piece == text[start..m.whole.start] + Expand(rep, text, m) + text[m.whole.end..next]
  {
    hide Expand;
    piece := text[start..m.whole.start];
    var expanded := ExpandReplacement(rep, text, m);
    piece := piece + expanded;
    next := m.whole.end;
    if m.whole.start == m.whole.end {
      piece := piece + text[next..next + 1];
      next := next + 1;
    }
  }

  // What has been put out, and what the matches from start on are still to be rebuilt into.
  ghost predicate Rebuilding(text: Text, find: nat -> Search, tmp: Text, start: nat, count: nat, rep: Text, f: Flags)
    requires |text| > 0 && start <= |text| && Honest(find, |text| - 1)
  {
    && Apart(Matches(find, |text| - 1, start), start, |text| - 1) && Apart(Matches(find, |text| - 1, 0), 0, |text| - 1)
    && tmp + Rebuilt(text, start, Matches(find, |text| - 1, start), count, rep, f)
       == Rebuilt(text, 0, Matches(find, |text| - 1, 0), 0, rep, f)
  }

  lemma RebuildingNext(text: Text, find: nat -> Search, tmp: Text, start: nat, count: nat, rep: Text, f: Flags,
                       piece: Text)
    requires |text| > 0 && start < |text| && Honest(find, |text| - 1) && find(start).FoundAt?
    requires Rebuilding(text, find, tmp, start, count, rep, f)
    requires var m := find(start).regs;
             piece == text[start..m.whole.start]
                      + (if Picked(f, count) then Expand(rep, text, m) else text[m.whole.start..m.whole.end])
                      + text[m.whole.end..After(m)]
    ensures Rebuilding(text, find, tmp + piece, After(find(start).regs), count + 1, rep, f)
  {
    hide Rebuilt, Expand;
    var m := find(start).regs;
    RebuiltNext(text, start, find, count, rep, f);
    var rest := Rebuilt(text, After(m), Matches(find, |text| - 1, After(m)), count + 1, rep, f);
    assert tmp + (piece + rest) == (tmp + piece) + rest;
  }

  lemma PickedIs(f: Flags, count: nat)
    requires count > 0 && !f.num ==> f.global
    ensures Picked(f, count) <==> !f.num || count + 1 == f.numb
  {
  }

  lemma FoundIn(find: nat -> Search, size: nat, start: nat)
    requires Honest(find, size)
    ensures find(start).FoundAt? ==>
              start <= size && MatchIn(find(start).regs, start, size) && Matches(find, size, start) != []
    ensures find(start).NotFound? ==> Matches(find, size, start) == []
  {
  }

  // The match after the first `count`: with the number bit it is replaced if it is the numbered one.
  method OneMatch(text: Text, start: nat, m: Match, rep: Text, f: Flags, count: nat)
    returns (piece: Text, next: nat, wanted: bool)
    requires |text| > 0 && MatchIn(m, start, |text| - 1) && (count > 0 && !f.num ==> f.global)
    ensures wanted <==> !f.num || count + 1 == f.numb
    ensures start < next == After(m) <= |text|
    ensures piece == text[start..m.whole.start]
                     + (if Picked(f, count) then Expand(rep, text, m) else text[m.whole.start..m.whole.end])
                     + text[m.whole.end..next]
  {
    hide Expand, After, Picked;
    wanted := !f.num || count + 1 == f.numb;
    PickedIs(f, count);
    if wanted {
      piece, next := ReplaceMatch(text, start, m, rep);
    } else {
      piece, next := CopyMatch(text, start, m);
    }
  }

  /** The `s` command on a line that ends in a newline. */
  method Substitute(text: Text, rep: Text, f: Flags, find: nat -> Search) returns (replaced: bool, line: Text)
    requires |text| > 0 && text[|text| - 1] == '\n' && Honest(find, |text| - 1)
    ensures Apart(Matches(find, |text| - 1, 0), 0, |text| - 1)
    ensures replaced <==> Matches(find, |text| - 1, 0) != []
    ensures line == Rebuilt(text, 0, Matches(find, |text| - 1, 0), 0, rep, f)
  {
    hide Expand, Rebuilt, Rebuilding, Apart, Honest, MatchIn, After, Picked, Matches, Over;
    var size: nat := |text| - 1;
    var count: nat, start: nat, remain, tmp: Text := 0, 0, size, [];
    RebuildingStarts(text, find, rep, f);
    while true
      invariant start <= size + 1 && remain == size - start
      invariant Rebuilding(text, find, tmp, start, count, rep, f)
      invariant count > 0 && !f.num ==> f.global
      invariant if count == 0 then tmp == [] && start == 0 else Matches(find, size, 0) != []
      decreases size + 1 - start
    {
      FoundIn(find, size, start);
      var offset := find(start);
      if offset.NotFound? {
        NoneLeft(text, find, tmp, start, count, rep, f);
        break;
      }
      var piece, next, wanted := OneMatch(text, start, offset.regs, rep, f, count);
      RebuildingNext(text, find, tmp, start, count, rep, f, piece);
      tmp, start, count := tmp + piece, next, count + 1;
      remain := size - start;
      if wanted && (remain < 0 || !f.global) {
        NoneWanted(text, find, tmp, start, count, rep, f);
        break;
      }
    }
    OverIs(text, find, tmp, start, rep, f);
    if count == 0 { return false, text; }
    replaced := true;
    line := tmp + text[start..start + remain + 1];
  }

  // The rest of the line is not changed any more.
  ghost predicate Over(text: Text, find: nat -> Search, tmp: Text, start: nat, rep: Text, f: Flags)
    requires |text| > 0 && start <= |text| && Honest(find, |text| - 1)
  {
    && Apart(Matches(find, |text| - 1, 0), 0, |text| - 1)
    && tmp + text[start..|text|] == Rebuilt(text, 0, Matches(find, |text| - 1, 0), 0, rep, f)
  }

  lemma OverIs(text: Text, find: nat -> Search, tmp: Text, start: nat, rep: Text, f: Flags)
    requires |text| > 0 && start <= |text| && Honest(find, |text| - 1) && Over(text, find, tmp, start, rep, f)
    ensures Apart(Matches(find, |text| - 1, 0), 0, |text| - 1)
    ensures tmp + text[start..|text|] == Rebuilt(text, 0, Matches(find, |text| - 1, 0), 0, rep, f)
    ensures tmp == [] && start == 0 ==> tmp + text[start..|text|] == text
  {
  }

  lemma RebuildingStarts(text: Text, find: nat -> Search, rep: Text, f: Flags)
    requires |text| > 0 && Honest(find, |text| - 1)
    ensures Rebuilding(text, find, [], 0, 0, rep, f) && Apart(Matches(find, |text| - 1, 0), 0, |text| - 1)
  {
    hide Rebuilt;
    MatchesApart(find, |text| - 1, 0);
  }

  lemma NoneLeft(text: Text, find: nat -> Search, tmp: Text, start: nat, count: nat, rep: Text, f: Flags)
    requires |text| > 0 && start <= |text| && Honest(find, |text| - 1)
    requires Rebuilding(text, find, tmp, start, count, rep, f) && Matches(find, |text| - 1, start) == []
    ensures Over(text, find, tmp, start, rep, f)
  {
    RebuiltIsIdentity(text, start, [], count, rep, f);
    assert text[start..] == text[start..|text|];
  }

  lemma NoneWanted(text: Text, find: nat -> Search, tmp: Text, start: nat, count: nat, rep: Text, f: Flags)
    requires |text| > 0 && start <= |text| && Honest(find, |text| - 1)
    requires Rebuilding(text, find, tmp, start, count, rep, f)
    requires start == |text| || (count > 0 && !f.global && (f.num ==> count == f.numb))
    ensures Over(text, find, tmp, start, rep, f)
  {
    RebuiltOver(text, start, find, count, rep, f);
    assert text[start..] == text[start..|text|];
  }

  lemma RebuiltNext(text: Text, start: nat, find: nat -> Search, j: nat, rep: Text, f: Flags)
    requires |text| > 0 && start <= |text| && Honest(find, |text| - 1) && find(start).FoundAt?
    requires Apart(Matches(find, |text| - 1, start), start, |text| - 1)
    ensures var (m, size) := (find(start).regs, |text| - 1);
            var next := After(m);
            && 0 <= next <= |text| && Apart(Matches(find, size, next), next, size)
            && Rebuilt(text, start, Matches(find, size, start), j, rep, f) ==
               text[start..m.whole.start]
               + (if Picked(f, j) then Expand(rep, text, m) else text[m.whole.start..m.whole.end])
               + text[m.whole.end..next]
               + Rebuilt(text, next, Matches(find, size, next), j + 1, rep, f)
  {
    var m := find(start).regs;
    MatchesApart(find, |text| - 1, After(m));
    assert Matches(find, |text| - 1, start)[1..] == Matches(find, |text| - 1, After(m));
  }

  // After the last replacement, the rest of the line is copied.
  lemma RebuiltOver(text: Text, start: nat, find: nat -> Search, j: nat, rep: Text, f: Flags)
    requires |text| > 0 && start <= |text| && Honest(find, |text| - 1)
    requires start == |text| || (j > 0 && !f.global && (f.num ==> j == f.numb))
    ensures Apart(Matches(find, |text| - 1, start), start, |text| - 1)
    ensures Rebuilt(text, start, Matches(find, |text| - 1, start), j, rep, f) == text[start..]
  {
    MatchesApart(find, |text| - 1, start);
    RebuiltIsIdentity(text, start, Matches(find, |text| - 1, start), j, rep, f);
  }
}
