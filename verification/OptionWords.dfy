/**
 A command line put together from words: clusters of option characters, long options, arguments in the same
 element or the next one, and everything that is no option. What each word reports is said word by word; a line
 is read as the words it has been put together from, and every line is put together from words.
 */
module OptionWords {
  import opened OptionScan

  // How a cluster ends: after its last plain character, with an option character that could take an argument but
  // gets none, with an argument in the same or in the next element, or without the argument it needs.
  datatype Tail = Bare | Lone(c: char) | Glued(c: char, arg: string) | Apart(c: char, arg: string) | Lacking(c: char)

  // The argument of a long option: none, behind `=`, in the next element, or needed and absent.
  datatype Arg = NoArg | Equals(arg: string) | Next(arg: string) | Absent

  // A long option is named by a key, which chooses an entry of the table, or none.
  datatype Word = Cluster(letters: string, tail: Tail) | Name(key: string, choice: Choice, arg: Arg)

  datatype Piece = Option(word: Word) | Loose(s: string)

  // Where the options end: with the line, at `--`, or at the first other element if the order is required.
  datatype End = Over | Dashes(rest: seq<string>) | Stopped(rest: seq<string>)

  // ---------- Spelling ----------

  function TailText(tail: Tail): string {
    match tail
    case Bare => ""
    case Lone(c) => [c]
    case Glued(c, arg) => [c] + arg
    case Apart(c, _) => [c]
    case Lacking(c) => [c]
  }

  function Elements(w: Word): (s: seq<string>)
    ensures s != []
  {
    match w
    case Cluster(letters, tail) => ["-" + (letters + TailText(tail))] + (if tail.Apart? then [tail.arg] else [])
    case Name(key, _, Equals(arg)) => ["--" + (key + ("=" + arg))]
    case Name(key, _, Next(arg)) => ["--" + key, arg]
    case Name(key, _, _) => ["--" + key]
  }

  // ---------- Reporting ----------

  function LetterReport(o: Options, c: char): Report {
    Report(Letter(if KindOf(o.optstring, c).Alone? then c else '?'), None, None)
  }

  function LetterReports(o: Options, letters: string): seq<Report> {
    if letters == "" then [] else [LetterReport(o, letters[0])] + LetterReports(o, letters[1..])
  }

  // An argument that is needed and not there is reported as `:` if optstring begins with one.
  function LackReport(o: Options): Report { Report(Letter(if ":" <= o.optstring then ':' else '?'), None, None) }

  function TailReports(o: Options, tail: Tail): seq<Report> {
    match tail
    case Bare => []
    case Lone(c) => [Report(Letter(c), None, None)]
    case Glued(c, arg) => [Report(Letter(c), Some(arg), None)]
    case Apart(c, arg) => [Report(Letter(c), Some(arg), None)]
    case Lacking(_) => [LackReport(o)]
  }

  function NameReport(o: Options, w: Word): Report
    requires w.Name? && o.longopts.Some? && (w.choice.Chosen? ==> w.choice.ix < |o.longopts.value|)
  {
    if !w.choice.Chosen? then Report(Letter('?'), None, None)
    else
      var opt := o.longopts.value[w.choice.ix];
      var code := Value(if opt.flagged then 0 else opt.val);
      match w.arg
      case NoArg => Report(code, None, Some(w.choice.ix))
      case Next(arg) => Report(code, Some(arg), Some(w.choice.ix))
      case Equals(arg) =>
        if opt.hasArg.NoArgument? then Report(Letter('?'), None, None)
        else Report(code, Some(arg), Some(w.choice.ix))
      case Absent => LackReport(o)
  }

  ghost function WordReports(o: Options, w: Word): seq<Report>
    requires Proper(o, w)
  {
    if w.Cluster? then LetterReports(o, w.letters) + TailReports(o, w.tail) else [NameReport(o, w)]
  }

  // ---------- Words that a line can hold ----------

  predicate PlainLetter(o: Options, c: char) {
    KindOf(o.optstring, c).Alone? || KindOf(o.optstring, c).Unknown?
  }

  predicate ProperTail(o: Options, tail: Tail) {
    match tail
    case Bare => true
    case Lone(c) => KindOf(o.optstring, c).Optional?
    case Glued(c, arg) => arg != "" && (KindOf(o.optstring, c).Optional? || KindOf(o.optstring, c).Required?)
    case Apart(c, _) => KindOf(o.optstring, c).Required?
    case Lacking(c) => KindOf(o.optstring, c).Required?
  }

  predicate ProperArg(hasArg: HasArg, arg: Arg) {
    match arg
    case NoArg => !hasArg.RequiredArgument?
    case Equals(_) => true
    case Next(_) => hasArg.RequiredArgument?
    case Absent => hasArg.RequiredArgument?
  }

  ghost predicate Proper(o: Options, w: Word) {
    match w
    case Cluster(letters, tail) =>
      var text := letters + TailText(tail);
      && text != "" && text != "-" && (o.longopts.Some? ==> text[0] != '-')
      && (forall k | 0 <= k < |letters| :: PlainLetter(o, letters[k])) && ProperTail(o, tail)
    case Name(key, choice, arg) =>
      && o.longopts.Some? && IsChoice(o.longopts.value, key, choice)
      && (forall k | 0 <= k < |key| :: key[k] != '=') && (key != "" || arg.Equals?)
      && (if choice.Chosen? then ProperArg(o.longopts.value[choice.ix].hasArg, arg) else arg.NoArg? || arg.Equals?)
  }

  // An argument is missing: only at the end of the line.
  predicate Final(w: Word) { if w.Cluster? then w.tail.Lacking? else w.arg.Absent? }

  ghost predicate ProperLine(o: Options, pieces: seq<Piece>, end: End) {
    if pieces == [] then end.Stopped? ==> o.inOrder && end.rest != [] && !IsOption(end.rest[0])
    else
      ProperLine(o, pieces[1..], end)
      && match pieces[0]
         case Option(w) => Proper(o, w) && (Final(w) ==> pieces[1..] == [] && end == Over)
         case Loose(s) => !IsOption(s) && !o.inOrder
  }

  function Line(pieces: seq<Piece>, end: End): seq<string> {
    if pieces == [] then
      match end case Over => [] case Dashes(rest) => ["--"] + rest case Stopped(rest) => rest
    else (if pieces[0].Option? then Elements(pieces[0].word) else [pieces[0].s]) + Line(pieces[1..], end)
  }

  // All reports, all elements of words with a `--` behind them, and everything else, each in order.
  ghost function Told(o: Options, pieces: seq<Piece>, end: End): Scan
    requires ProperLine(o, pieces, end)
  {
    if pieces == [] then
      match end
      case Over => Scan([], [], [])
      case Dashes(rest) => Scan([], ["--"], rest)
      case Stopped(rest) => Scan([], [], rest)
    else
      var told := Told(o, pieces[1..], end);
      match pieces[0]
      case Option(w) => Scan(WordReports(o, w) + told.reports, Elements(w) + told.used, told.left)
      case Loose(s) => Scan(told.reports, told.used, [s] + told.left)
  }

  // ---------- A line is read as the words it is put together from ----------

  lemma BeforeBefore(a: seq<Report>, b: seq<string>, c: seq<Report>, d: seq<string>, scan: Scan)
    ensures Before(a, b, [], Before(c, d, [], scan)) == Before(a + c, b + d, [], scan)
  {
    var x := Before(a, b, [], Before(c, d, [], scan));
    assert a + (c + scan.reports) == a + c + scan.reports && b + (d + scan.used) == b + d + scan.used;
    assert [] + ([] + scan.left) == [] + scan.left;
  }

  // Plain letters in front of more text.
  lemma {:induction false} LettersRead(o: Options, letters: string, more: string, args: seq<string>)
    requires more != "" && args != [] && forall k | 0 <= k < |letters| :: PlainLetter(o, letters[k])
    ensures ScanCluster(o, letters + more, args)
            == Before(LetterReports(o, letters), [], [], ScanCluster(o, more, args))
    decreases |letters|
  {
    var scan := ScanCluster(o, more, args);
    if letters == "" {
      assert letters + more == more;
      assert [] + scan.reports == scan.reports && [] + scan.used == scan.used && [] + scan.left == scan.left;
    } else {
      var text := letters + more;
      assert text[0] == letters[0] && text[1..] == letters[1..] + more && PlainLetter(o, letters[0]);
      LettersRead(o, letters[1..], more, args);
      BeforeBefore([LetterReport(o, letters[0])], [], LetterReports(o, letters[1..]), [], scan);
      var none: seq<string> := [];
      assert none + none == none;
    }
  }

  // Plain letters to the end of the element.
  lemma LettersEnd(o: Options, letters: string, args: seq<string>)
    requires letters != "" && args != [] && forall k | 0 <= k < |letters| :: PlainLetter(o, letters[k])
    ensures ScanCluster(o, letters, args) == Before(LetterReports(o, letters), args[..1], [], ScanLine(o, args[1..]))
  {
    hide KindOf, ScanCluster, ScanLine, PlainLetter, LetterReports, LetterReport;
    var n := |letters| - 1;
    assert letters == letters[..n] + [letters[n]] && PlainLetter(o, letters[n]);
    LettersRead(o, letters[..n], [letters[n]], args);
    LetterRead(o, letters[n], args);
    LetterReportsSnoc(o, letters[..n], letters[n]);
    BeforeBefore(LetterReports(o, letters[..n]), [], [LetterReport(o, letters[n])], args[..1], ScanLine(o, args[1..]));
    assert [] + args[..1] == args[..1];
  }

  lemma LetterRead(o: Options, c: char, args: seq<string>)
    requires args != [] && PlainLetter(o, c)
    ensures ScanCluster(o, [c], args) == Before([LetterReport(o, c)], args[..1], [], ScanLine(o, args[1..]))
  {
    hide KindOf;
    assert [c][1..] == "";
  }

  lemma {:induction false} LetterReportsSnoc(o: Options, letters: string, c: char)
    ensures LetterReports(o, letters + [c]) == LetterReports(o, letters) + [LetterReport(o, c)]
    decreases |letters|
  {
    if letters == "" {
      assert letters + [c] == [c] && [c][1..] == "";
    } else {
      assert (letters + [c])[1..] == letters[1..] + [c];
      LetterReportsSnoc(o, letters[1..], c);
    }
  }

  lemma ClusterRead(o: Options, w: Word, rest: seq<string>)
    requires w.Cluster? && Proper(o, w) && (Final(w) ==> rest == [])
    ensures ScanLine(o, Elements(w) + rest) == Before(WordReports(o, w), Elements(w), [], ScanLine(o, rest))
  {
    var (args, text, tail) := (Elements(w) + rest, w.letters + TailText(w.tail), w.tail);
    assert args[0] == "-" + text && args[0][1..] == text && IsOption(args[0]) && !IsLong(o, args[0]);
    assert "--"[1..] == "-";
    assert ScanLine(o, args) == ScanCluster(o, text, args);
    if tail.Bare? {
      assert text == w.letters && args[..1] == Elements(w) && args[1..] == rest;
      LettersEnd(o, text, args);
      assert WordReports(o, w) == LetterReports(o, w.letters);
    } else {
      LettersRead(o, w.letters, TailText(tail), args);
      TailRead(o, tail, args);
      var takes := if tail.Apart? then 1 else 0;
      assert args[..1 + takes] == Elements(w) && args[1 + takes..] == rest;
      BeforeBefore(LetterReports(o, w.letters), [], TailReports(o, tail), Elements(w), ScanLine(o, rest));
      assert [] + Elements(w) == Elements(w);
    }
  }

  lemma TailRead(o: Options, tail: Tail, args: seq<string>)
    requires !tail.Bare? && ProperTail(o, tail) && args != []
    requires tail.Apart? ==> |args| >= 2 && args[1] == tail.arg
    requires tail.Lacking? ==> |args| == 1
    ensures var takes := if tail.Apart? then 1 else 0;
            ScanCluster(o, TailText(tail), args)
            == Before(TailReports(o, tail), args[..1 + takes], [], ScanLine(o, args[1 + takes..]))
  {
    var text := TailText(tail);
    assert text[0] == tail.c && text[1..] == if tail.Glued? then tail.arg else "";
  }

  function NameText(w: Word): string
    requires w.Name?
  {
    if w.arg.Equals? then w.key + ("=" + w.arg.arg) else w.key
  }

  lemma NameElements(w: Word)
    requires w.Name?
    ensures Elements(w) == ["--" + NameText(w)] + (if w.arg.Next? then [w.arg.arg] else [])
  {
  }

  lemma NameRead(o: Options, w: Word, rest: seq<string>)
    requires w.Name? && Proper(o, w) && (Final(w) ==> rest == [])
    ensures ScanLine(o, Elements(w) + rest) == Before(WordReports(o, w), Elements(w), [], ScanLine(o, rest))
  {
    hide Proper, NameText, Elements, ReadLong, NameReport;
    var (args, text, takes) := (Elements(w) + rest, NameText(w), if w.arg.Next? then 1 else 0);
    NameElements(w);
    LongRead(o, w, rest);
    assert args[0] == "--" + text && args[0][2..] == text && "--"[2..] == "";
    assert args[1..] == (if w.arg.Next? then [w.arg.arg] else []) + rest;
    assert args[..1 + takes] == Elements(w) && args[1 + takes..] == rest;
  }

  lemma LongRead(o: Options, w: Word, rest: seq<string>)
    requires w.Name? && Proper(o, w) && (Final(w) ==> rest == [])
    ensures NameText(w) != "" && o.longopts.Some? && (w.choice.Chosen? ==> w.choice.ix < |o.longopts.value|)
    ensures ReadLong(o.optstring, o.longopts.value, NameText(w), (if w.arg.Next? then [w.arg.arg] else []) + rest)
            == (NameReport(o, w), if w.arg.Next? then 1 else 0)
  {
    var (text, tail) := (NameText(w), (if w.arg.Next? then [w.arg.arg] else []) + rest);
    KeyEnds(w.key, text);
    assert text[..|w.key|] == w.key && (w.arg.Equals? ==> text[|w.key| + 1..] == w.arg.arg);
    ChoiceUnique(o.longopts.value, w.key, w.choice, Choose(o.longopts.value, w.key));
  }

  lemma {:induction false} KeyEnds(key: string, text: string)
    requires key <= text && (forall k | 0 <= k < |key| :: key[k] != '=') && (|key| < |text| ==> text[|key|] == '=')
    ensures NameLength(text) == |key|
    decreases |key|
  {
    if key != "" { KeyEnds(key[1..], text[1..]); }
  }

  /** What a line reports, uses up and leaves over is what its words say: each option character and each long
      option with its own argument, each unknown or ambiguous one and each missing argument as an error, in
      order. */
  lemma {:induction false} LineIsTold(o: Options, pieces: seq<Piece>, end: End)
    requires ProperLine(o, pieces, end)
    ensures ScanLine(o, Line(pieces, end)) == Told(o, pieces, end)
    decreases |pieces|
  {
    hide Proper, WordReports, Elements;
    if pieces == [] {
      match end
      case Over =>
      case Dashes(rest) => assert (["--"] + rest)[0] == "--" && (["--"] + rest)[1..] == rest;
      case Stopped(rest) => assert IsOption("--");
    } else {
      LineIsTold(o, pieces[1..], end);
      var (rest, told) := (Line(pieces[1..], end), Told(o, pieces[1..], end));
      match pieces[0]
      case Option(w) =>
        assert Final(w) ==> rest == [];
        if w.Cluster? { ClusterRead(o, w, rest); } else { NameRead(o, w, rest); }
        assert [] + told.left == told.left;
      case Loose(s) =>
        assert ([s] + rest)[0] == s && ([s] + rest)[1..] == rest && IsOption("--");
        assert [] + told.reports == told.reports && [] + told.used == told.used;
    }
  }

  // ---------- Every line is put together from words ----------

  lemma {:induction false} LineHasWords(o: Options, args: seq<string>) returns (pieces: seq<Piece>, end: End)
    ensures ProperLine(o, pieces, end) && Line(pieces, end) == args
    decreases |args|
  {
    hide Proper, Elements;
    if args == [] { return [], Over; }
    if args[0] == "--" {
      assert ["--"] + args[1..] == args;
      return [], Dashes(args[1..]);
    }
    if !IsOption(args[0]) && o.inOrder { return [], Stopped(args); }
    var first;
    if !IsOption(args[0]) {
      first := Loose(args[0]);
      pieces, end := LineHasWords(o, args[1..]);
      assert [args[0]] + args[1..] == args;
    } else {
      var w, takes := FirstWord(o, args);
      first := Option(w);
      pieces, end := LineHasWords(o, args[1 + takes..]);
      assert args[..1 + takes] + args[1 + takes..] == args;
      if Final(w) { NoPieces(pieces, end); }
    }
    pieces := [first] + pieces;
    assert pieces[1..] == pieces[1..];
  }

  lemma NoPieces(pieces: seq<Piece>, end: End)
    requires Line(pieces, end) == []
    ensures pieces == [] && !end.Dashes? && (end.Stopped? ==> end.rest == [])
  {
  }

  lemma FirstWord(o: Options, args: seq<string>) returns (w: Word, takes: nat)
    requires args != [] && IsOption(args[0]) && args[0] != "--"
    ensures 1 + takes <= |args| && Proper(o, w) && Elements(w) == args[..1 + takes]
    ensures Final(w) ==> args[1 + takes..] == []
  {
    if IsLong(o, args[0]) { w, takes := FirstName(o, args); } else { w, takes := FirstCluster(o, args); }
  }

  lemma FirstName(o: Options, args: seq<string>) returns (w: Word, takes: nat)
    requires args != [] && IsLong(o, args[0]) && args[0] != "--"
    ensures 1 + takes <= |args| && Proper(o, w) && Elements(w) == args[..1 + takes]
    ensures Final(w) ==> args[1 + takes..] == []
  {
    var text := args[0][2..];
    assert args[0] == "--" + text;
    var n := NameLength(text);
    var key := text[..n];
    var choice := Choose(o.longopts.value, key);
    takes := 0;
    if n < |text| {
      assert text == key + ("=" + text[n + 1..]);
      w := Name(key, choice, Equals(text[n + 1..]));
    } else if !choice.Chosen? || !o.longopts.value[choice.ix].hasArg.RequiredArgument? {
      w := Name(key, choice, NoArg);
    } else if |args| == 1 {
      w := Name(key, choice, Absent);
    } else {
      w, takes := Name(key, choice, Next(args[1])), 1;
    }
    assert n == |text| ==> text == key;
  }

  lemma FirstCluster(o: Options, args: seq<string>) returns (w: Word, takes: nat)
    requires args != [] && IsOption(args[0]) && !IsLong(o, args[0]) && args[0] != "--"
    ensures 1 + takes <= |args| && Proper(o, w) && Elements(w) == args[..1 + takes]
    ensures Final(w) ==> args[1 + takes..] == []
  {
    hide KindOf, Proper, Elements, PlainLetter;
    var text := args[0][1..];
    var n := PlainPart(o, text);
    var tail := FirstTail(o, text[n..], args);
    assert text[..n] + TailText(tail) == text;
    takes := if tail.Apart? then 1 else 0;
    w := Cluster(text[..n], tail);
    ClusterFits(o, w, args);
  }

  // The part of a cluster from its first character on that is no plain one.
  lemma FirstTail(o: Options, text: string, args: seq<string>) returns (tail: Tail)
    requires args != [] && (text != "" ==> !PlainLetter(o, text[0]))
    ensures TailText(tail) == text && ProperTail(o, tail) && (tail.Apart? ==> |args| > 1 && tail.arg == args[1])
    ensures tail.Lacking? ==> |args| == 1
  {
    if text == "" { return Bare; }
    var (c, more) := (text[0], text[1..]);
    assert text == [c] + more;
    tail := if more != "" then Glued(c, more)
            else if KindOf(o.optstring, c).Optional? then Lone(c)
            else if |args| == 1 then Lacking(c)
            else Apart(c, args[1]);
  }

  lemma ClusterFits(o: Options, w: Word, args: seq<string>)
    requires args != [] && IsOption(args[0]) && !IsLong(o, args[0]) && args[0] != "--"
    requires w.Cluster? && w.letters + TailText(w.tail) == args[0][1..] && ProperTail(o, w.tail)
    requires forall k | 0 <= k < |w.letters| :: PlainLetter(o, w.letters[k])
    requires w.tail.Apart? ==> |args| > 1 && w.tail.arg == args[1]
    ensures Proper(o, w) && Elements(w) == args[..if w.tail.Apart? then 2 else 1]
  {
    hide KindOf, PlainLetter, ProperTail;
    var text := args[0][1..];
    assert args[0] == "-" + text && "-" + "-" == "--";
  }

  function PlainPart(o: Options, text: string): (n: nat)
    ensures n <= |text| && (forall k | 0 <= k < n :: PlainLetter(o, text[k]))
    ensures n < |text| ==> !PlainLetter(o, text[n])
  {
    if text == "" || !PlainLetter(o, text[0]) then 0 else 1 + PlainPart(o, text[1..])
  }
}
