/**
 A command line read from left to right, without moving anything: the options reported, the elements
 they use up, and the elements left over. This is what repeated calls of getopt have to amount to.
 */
module OptionScan {

  datatype Maybe<T> = None | Some(value: T)

  datatype ArgKind = Unknown | Alone | Required | Optional

  datatype HasArg = NoArgument | RequiredArgument | OptionalArgument

  datatype LongOption = LongOption(name: string, hasArg: HasArg, flagged: bool, val: int)

  // The value returned: an option character (or '?' or ':'), or the value of a long option.
  datatype Code = Letter(c: char) | Value(v: int)

  datatype Report = Report(code: Code, optarg: Maybe<string>, longind: Maybe<nat>)

  // longopts is absent for plain getopt; inOrder is REQUIRE_ORDER, otherwise PERMUTE.
  datatype Options = Options(optstring: string, longopts: Maybe<seq<LongOption>>, inOrder: bool)

  // The colons after the first occurrence of c in optstring.
  function KindOf(optstring: string, c: char): ArgKind {
    if c == ':' || optstring == "" then Unknown
    else if optstring[0] != c then KindOf(optstring[1..], c)
    else if |optstring| < 2 || optstring[1] != ':' then Alone
    else if |optstring| < 3 || optstring[2] != ':' then Required
    else Optional
  }

  predicate IsOption(s: string) { |s| >= 2 && s[0] == '-' }

  // ---------- Long options ----------

  datatype Choice = Missing | Ambiguous | Chosen(ix: nat)

  predicate Abbreviates(key: string, opt: LongOption) { key <= opt.name }

  predicate NoExact(opts: seq<LongOption>, key: string) { forall j | 0 <= j < |opts| :: opts[j].name != key }

  // An exact name wins; otherwise an abbreviation must be unique.
  ghost predicate IsChoice(opts: seq<LongOption>, key: string, choice: Choice) {
    match choice
    case Chosen(ix) =>
      ix < |opts|
      && ((opts[ix].name == key && forall j | 0 <= j < ix :: opts[j].name != key)
          || (NoExact(opts, key) && forall j | 0 <= j < |opts| :: Abbreviates(key, opts[j]) <==> j == ix))
    case Ambiguous =>
      NoExact(opts, key) && exists i, j :: 0 <= i < j < |opts| && Abbreviates(key, opts[i]) && Abbreviates(key, opts[j])
    case Missing => forall j | 0 <= j < |opts| :: !Abbreviates(key, opts[j])
  }

  lemma ChoiceUnique(opts: seq<LongOption>, key: string, x: Choice, y: Choice)
    requires IsChoice(opts, key, x) && IsChoice(opts, key, y)
    ensures x == y
  {
    if x.Chosen? && opts[x.ix].name == key { assert Abbreviates(key, opts[x.ix]); }
    if y.Chosen? && opts[y.ix].name == key { assert Abbreviates(key, opts[y.ix]); }
  }

  lemma {:induction false} FirstExact(opts: seq<LongOption>, key: string, n: nat) returns (ix: nat)
    requires n <= |opts| && exists j :: 0 <= j < n && opts[j].name == key
    ensures ix < n && opts[ix].name == key && forall j | 0 <= j < ix :: opts[j].name != key
    decreases n
  {
    var j :| 0 <= j < n && opts[j].name == key;
    if exists k :: 0 <= k < j && opts[k].name == key { ix := FirstExact(opts, key, j); } else { ix := j; }
  }

  lemma ChoiceExists(opts: seq<LongOption>, key: string)
    ensures exists choice :: IsChoice(opts, key, choice)
  {
    if !NoExact(opts, key) {
      var ix := FirstExact(opts, key, |opts|);
      assert IsChoice(opts, key, Chosen(ix));
    } else if ix :| 0 <= ix < |opts| && Abbreviates(key, opts[ix]) {
      if j :| 0 <= j < |opts| && j != ix && Abbreviates(key, opts[j]) {
        assert IsChoice(opts, key, Ambiguous) by { assert if ix < j then ix < j else j < ix; }
      } else {
        assert IsChoice(opts, key, Chosen(ix));
      }
    } else {
      assert IsChoice(opts, key, Missing);
    }
  }

  ghost function Choose(opts: seq<LongOption>, key: string): (choice: Choice)
    ensures IsChoice(opts, key, choice)
  {
    ChoiceExists(opts, key);
    var choice :| IsChoice(opts, key, choice);
    choice
  }

  // The name in `--name` or `--name=argument`.
  function NameLength(s: string): (n: nat)
    ensures n <= |s| && (forall k | 0 <= k < n :: s[k] != '=') && (n < |s| ==> s[n] == '=')
  {
    if s == "" || s[0] == '=' then 0 else 1 + NameLength(s[1..])
  }

  function Complaint(optstring: string): Report {
    Report(Letter(if optstring != "" && optstring[0] == ':' then ':' else '?'), None, None)
  }

  const REFUSED := Report(Letter('?'), None, None)

  function LongCode(opt: LongOption): Code { Value(if opt.flagged then 0 else opt.val) }

  // One long option: what is reported, and how many of the elements after it are used up.
  ghost function ReadLong(optstring: string, opts: seq<LongOption>, text: string, tail: seq<string>): (r: (Report, nat))
    ensures r.1 <= |tail|
  {
    var n := NameLength(text);
    var choice := Choose(opts, text[..n]);
    if !choice.Chosen? then (REFUSED, 0)
    else
      var opt := opts[choice.ix];
      if n < |text| then
        (if opt.hasArg.NoArgument? then REFUSED else Report(LongCode(opt), Some(text[n + 1..]), Some(choice.ix)), 0)
      else if !opt.hasArg.RequiredArgument? then (Report(LongCode(opt), None, Some(choice.ix)), 0)
      else if tail == [] then (Complaint(optstring), 0)
      else (Report(LongCode(opt), Some(tail[0]), Some(choice.ix)), 1)
  }

  // ---------- Short options ----------

  // One option character: what is reported, what is left of the element, and how many of the elements
  // after it are used up.
  function ReadShort(optstring: string, text: string, tail: seq<string>): (r: (Report, string, nat))
    requires text != ""
    ensures |r.1| < |text| && r.2 <= |tail|
  {
    var (c, more) := (text[0], text[1..]);
    match KindOf(optstring, c)
    case Unknown => (REFUSED, more, 0)
    case Alone => (Report(Letter(c), None, None), more, 0)
    case Optional => (Report(Letter(c), if more != "" then Some(more) else None, None), "", 0)
    case Required =>
      if more != "" then (Report(Letter(c), Some(more), None), "", 0)
      else if tail == [] then (Complaint(optstring), "", 0)
      else (Report(Letter(c), Some(tail[0]), None), "", 1)
  }

  // ---------- The whole line ----------

  // Reports made, elements used up, and elements left over, each in order.
  datatype Scan = Scan(reports: seq<Report>, used: seq<string>, left: seq<string>)

  function Before(reports: seq<Report>, used: seq<string>, left: seq<string>, scan: Scan): Scan {
    Scan(reports + scan.reports, used + scan.used, left + scan.left)
  }

  predicate IsLong(o: Options, s: string) { o.longopts.Some? && |s| >= 2 && s[0] == '-' && s[1] == '-' }

  ghost function ScanLine(o: Options, args: seq<string>): Scan
    decreases |args|, 1, 0
  {
    if args == [] then Scan([], [], [])
    else if args[0] == "--" then Scan([], ["--"], args[1..])
    else if !IsOption(args[0]) then
      if o.inOrder then Scan([], [], args) else Before([], [], [args[0]], ScanLine(o, args[1..]))
    else if IsLong(o, args[0]) then
      var (report, takes) := ReadLong(o.optstring, o.longopts.value, args[0][2..], args[1..]);
      Before([report], args[..1 + takes], [], ScanLine(o, args[1 + takes..]))
    else ScanCluster(o, args[0][1..], args)
  }

  // Of the first element, text is still to be read.
  ghost function ScanCluster(o: Options, text: string, args: seq<string>): Scan
    requires text != "" && args != []
    decreases |args|, 0, |text|
  {
    var (report, more, takes) := ReadShort(o.optstring, text, args[1..]);
    if more != "" then Before([report], [], [], ScanCluster(o, more, args))
    else Before([report], args[..1 + takes], [], ScanLine(o, args[1 + takes..]))
  }

  ghost function ScanFrom(o: Options, text: string, args: seq<string>): Scan
    requires text != "" ==> args != []
  {
    if text == "" then ScanLine(o, args) else ScanCluster(o, text, args)
  }

  // ---------- What is used up and what is left over keep their order ----------

  // Reading whole from the front, every element comes next in x or next in y.
  ghost predicate Interleaves(whole: seq<string>, x: seq<string>, y: seq<string>) {
    if whole == [] then x == [] && y == []
    else (x != [] && x[0] == whole[0] && Interleaves(whole[1..], x[1..], y))
         || (y != [] && y[0] == whole[0] && Interleaves(whole[1..], x, y[1..]))
  }

  lemma {:induction false} AllLeft(whole: seq<string>)
    ensures Interleaves(whole, [], whole)
  {
    if whole != [] { AllLeft(whole[1..]); }
  }

  lemma {:induction false} UsedFirst(front: seq<string>, whole: seq<string>, x: seq<string>, y: seq<string>)
    requires Interleaves(whole, x, y)
    ensures Interleaves(front + whole, front + x, y)
    decreases |front|
  {
    if front == [] {
      assert front + whole == whole && front + x == x;
    } else {
      UsedFirst(front[1..], whole, x, y);
      assert (front + whole)[1..] == front[1..] + whole && (front + x)[1..] == front[1..] + x;
    }
  }

  /** Options and their arguments on one side, everything else on the other: both in their original
      order, and nothing lost. */
  lemma {:induction false} LineKeepsOrder(o: Options, args: seq<string>)
    ensures Interleaves(args, ScanLine(o, args).used, ScanLine(o, args).left)
    decreases |args|, 1, 0
  {
    if args != [] {
      if args[0] == "--" {
        AllLeft(args[1..]);
        assert ["--"][1..] == [];
      } else if !IsOption(args[0]) {
        if o.inOrder { AllLeft(args); } else {
          LineKeepsOrder(o, args[1..]);
          var rest := ScanLine(o, args[1..]);
          assert [] + rest.used == rest.used && ([args[0]] + rest.left)[1..] == rest.left;
        }
      } else if IsLong(o, args[0]) {
        var (report, takes) := ReadLong(o.optstring, o.longopts.value, args[0][2..], args[1..]);
        ElementKeepsOrder(o, args, takes);
      } else {
        ClusterKeepsOrder(o, args[0][1..], args);
      }
    }
  }

  lemma {:induction false} ElementKeepsOrder(o: Options, args: seq<string>, takes: nat)
    requires 1 + takes <= |args|
    ensures var rest := ScanLine(o, args[1 + takes..]); Interleaves(args, args[..1 + takes] + rest.used, [] + rest.left)
    decreases |args|, 0, 0
  {
    var rest := ScanLine(o, args[1 + takes..]);
    LineKeepsOrder(o, args[1 + takes..]);
    UsedFirst(args[..1 + takes], args[1 + takes..], rest.used, rest.left);
    assert args[..1 + takes] + args[1 + takes..] == args && [] + rest.left == rest.left;
  }

  lemma {:induction false} ClusterKeepsOrder(o: Options, text: string, args: seq<string>)
    requires text != "" && args != []
    ensures Interleaves(args, ScanCluster(o, text, args).used, ScanCluster(o, text, args).left)
    decreases |args|, 0, |text|
  {
    var (report, more, takes) := ReadShort(o.optstring, text, args[1..]);
    if more != "" {
      ClusterKeepsOrder(o, more, args);
      var rest := ScanCluster(o, more, args);
      assert [] + rest.used == rest.used && [] + rest.left == rest.left;
    } else {
      ElementKeepsOrder(o, args, takes);
    }
  }
}
