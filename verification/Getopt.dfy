/**
 GNU getopt as a resumable scanner over argv: each call reports one option, and argv is permuted in
 place so that at the end the elements that are not options come last.
 */
module Getopt {
  import opened OptionScan
  import opened OptionWords

  // argv as it stands: options used up before and after the block of skipped elements.
  ghost predicate Placed(now: seq<string>, orig: seq<string>, optind: nat, first: nat, last: nat, used: seq<string>,
                         left: seq<string>) {
    && 1 <= first <= last <= optind <= |now| == |orig| && now[0] == orig[0]
    && now[1..first] + now[last..optind] == used && now[first..last] == left && now[optind..] == orig[optind..]
  }

  function Exchanged(s: seq<string>, first: nat, last: nat, optind: nat): seq<string>
    requires first <= last <= optind <= |s|
  {
    s[..first] + s[last..optind] + s[first..last] + s[optind..]
  }

  // now is was with `piece` written at j.
  ghost predicate Copied(now: seq<string>, was: seq<string>, j: nat, piece: seq<string>) {
    j + |piece| <= |now| == |was| && now[..j] == was[..j] && now[j..j + |piece|] == piece
    && now[j + |piece|..] == was[j + |piece|..]
  }

  lemma CopiedWhole(now: seq<string>, was: seq<string>, piece: seq<string>)
    requires Copied(now, was, 0, piece) && |piece| == |was|
    ensures now == piece && now[0..|piece|] == piece
  {
    assert now[0..|piece|] == now;
  }

  lemma ExchangedIs(was: seq<string>, half: seq<string>, now: seq<string>, first: nat, last: nat, optind: nat)
    requires first <= last <= optind <= |was|
    requires Copied(half, was, first, was[last..optind])
    requires Copied(now, half, first + (optind - last), was[first..last])
    ensures now == Exchanged(was, first, last, optind)
  {
    var mid := first + (optind - last);
    assert now[..mid] == half[..first] + half[first..mid];
    assert now[optind..] == half[mid..][optind - mid..] == was[optind..];
    assert now == now[..mid] + now[mid..optind] + now[optind..];
  }

  lemma ExchangePlaces(now: seq<string>, orig: seq<string>, optind: nat, first: nat, last: nat, used: seq<string>,
                       left: seq<string>)
    requires Placed(now, orig, optind, first, last, used, left)
    ensures Placed(Exchanged(now, first, last, optind), orig, optind, first + (optind - last), optind, used, left)
  {
    var s, mid := Exchanged(now, first, last, optind), first + (optind - last);
    assert s[1..mid] == now[1..first] + now[last..optind];
    assert s[mid..optind] == now[first..last] && s[optind..optind] == [];
    assert s[optind..] == now[optind..];
  }

  // Elements read in place: they are used up.
  lemma UseElements(now: seq<string>, orig: seq<string>, optind: nat, first: nat, last: nat, used: seq<string>,
                    left: seq<string>, n: nat)
    requires Placed(now, orig, optind, first, last, used, left) && optind + n <= |now|
    ensures Placed(now, orig, optind + n, first, last, used + orig[optind..][..n], left)
  {
    assert now[last..optind + n] == now[last..optind] + now[optind..][..n];
    assert now[optind + n..] == now[optind..][n..];
  }

  // An element skipped: it joins the block of elements left over.
  lemma SkipElement(now: seq<string>, orig: seq<string>, optind: nat, first: nat, used: seq<string>, left: seq<string>)
    requires Placed(now, orig, optind, first, optind, used, left) && optind < |now|
    ensures now[optind] == orig[optind]
    ensures Placed(now, orig, optind + 1, first, optind + 1, used, left + [orig[optind]])
  {
    assert now[optind] == now[optind..][0];
    assert now[first..optind + 1] == now[first..optind] + [now[optind]];
    assert now[optind + 1..optind + 1] == [] && now[optind..optind] == [];
    assert now[optind + 1..] == now[optind..][1..];
  }

  class Scanner {
    const argv: array<string>
    const options: Options

    var optind: nat
    var firstNonopt: nat
    var lastNonopt: nat
    var nextchar: string

    ghost const original: seq<string>
    ghost var reports: seq<Report>
    ghost var used: seq<string>
    ghost var left: seq<string>
    ghost var ended: bool

    // What a scan from left to right of the original argv amounts to.
    ghost function Whole(): Scan
      requires original != []
    {
      ScanLine(options, original[1..])
    }

    // Between two elements, or (with text) inside one.
    ghost predicate Scanning(scan: Scan)
      reads this, argv
    {
      && original != [] && !ended
      && Placed(argv[..], original, optind, firstNonopt, lastNonopt, used, left)
      && (options.inOrder ==> firstNonopt == lastNonopt == 1)
      && Whole() == Before(reports, used, left, scan)
    }

    ghost predicate Valid()
      reads this, argv
    {
      if optind == 0 then
        && original == argv[..] && original != [] && !ended && nextchar == ""
        && reports == [] && used == [] && left == []
      else (nextchar != "" ==> optind < argv.Length) && |original| == argv.Length && optind <= argv.Length
           && Scanning(ScanFrom(options, nextchar, original[optind..]))
    }

    // EOF: everything has been reported, argv is partitioned and optind is the boundary.
    ghost predicate Finished()
      reads this, argv
    {
      && original != [] && ended && reports == Whole().reports
      && argv[..] == [original[0]] + Whole().used + Whole().left && optind == 1 + |Whole().used|
    }

    // optstring starts neither with `+` nor with `-`.
    constructor (args: array<string>, o: Options)
      requires args.Length > 0 && (o.optstring != "" ==> o.optstring[0] != '+' && o.optstring[0] != '-')
      ensures Valid() && argv == args && options == o && original == args[..] && optind == 0
    {
      argv, options, optind, firstNonopt, lastNonopt, nextchar := args, o, 0, 0, 0, "";
      original, reports, used, left, ended := args[..], [], [], [], false;
    }

    // my_bcopy of n elements.
    static method Copy(from: array<string>, i: nat, to: array<string>, j: nat, n: nat)
      requires i + n <= from.Length && j + n <= to.Length && (from == to ==> j <= i)
      modifies to
      ensures Copied(to[..], old(to[..]), j, old(from[..])[i..i + n])
    {
      var k: nat := 0;
      while k < n
        invariant k <= n && to[..j] == old(to[..j]) && to[j + k..] == old(to[j + k..])
        invariant to[j..j + k] == old(from[i..i + k])
        invariant from != to ==> from[..] == old(from[..])
      {
        assert from[i + k] == old(from[i + k]) by {
          if from == to { assert to[j + k..][i + k - (j + k)] == to[i + k]; }
        }
        to[j + k] := from[i + k];
        assert to[j + (k + 1)..] == to[j + k..][1..] && old(to[j + (k + 1)..]) == old(to[j + k..])[1..];
        k := k + 1;
      }
      assert to[..][j..j + n] == to[j..j + n] && old(from[..])[i..i + n] == old(from[i..i + n]);
    }

    // A block copied to a temporary.
    static method Saved(from: array<string>, i: nat, n: nat) returns (temp: array<string>)
      requires i + n <= from.Length
      ensures fresh(temp) && temp.Length == n && temp[..] == from[..][i..i + n]
    {
      hide Copied;
      temp := new string[n];
      ghost var blank := temp[..];
      Copy(from, i, temp, 0, n);
      CopiedWhole(temp[..], blank, from[..][i..i + n]);
    }

    method Exchange()
      requires firstNonopt <= lastNonopt <= optind <= argv.Length
      modifies this`firstNonopt, this`lastNonopt, argv
      ensures argv[..] == Exchanged(old(argv[..]), old(firstNonopt), old(lastNonopt), optind)
      ensures firstNonopt == old(firstNonopt) + (optind - old(lastNonopt)) && lastNonopt == optind
    {
      hide Exchanged, Copied;
      ghost var was := argv[..];
      var (first, last, end) := (firstNonopt, lastNonopt, optind);
      var mid, n := first + (end - last), last - first;
      ghost var block := was[first..last];
      assert last + (end - last) == end && first + n == last && block[0..0 + n] == block;
      var temp := Saved(argv, first, n);
      Copy(argv, last, argv, first, end - last);
      ghost var half := argv[..];
      assert Copied(half, was, first, was[last..end]) && temp[..] == block;
      Copy(temp, 0, argv, mid, n);
      ghost var now := argv[..];
      assert Copied(now, half, mid, block);
      ExchangedIs(was, half, now, first, last, end);
      firstNonopt := mid;
      lastNonopt := end;
    }

    // PERMUTE: brings options processed since the last skip before the skipped elements, and skips on.
    method SkipNonoptions()
      requires optind > 0 && |original| == argv.Length && optind <= argv.Length && !options.inOrder
      requires Scanning(ScanLine(options, original[optind..]))
      modifies this`optind, this`firstNonopt, this`lastNonopt, this`left, argv
      ensures 0 < optind <= argv.Length && Scanning(ScanLine(options, original[optind..])) && lastNonopt == optind
      ensures optind < argv.Length ==> IsOption(argv[optind])
    {
      hide Placed, Exchanged, ScanLine;
      PlacedOrder(argv[..], original, optind, firstNonopt, lastNonopt, used, left);
      ExchangePlaces(argv[..], original, optind, firstNonopt, lastNonopt, used, left);
      ExchangeOfOne(argv[..], firstNonopt, lastNonopt, optind);
      if firstNonopt != lastNonopt && lastNonopt != optind {
        Exchange();
      } else if lastNonopt != optind {
        firstNonopt := optind;
      }
      while optind < argv.Length && !IsOption(argv[optind])
        invariant 0 < optind <= argv.Length == |original| && !ended && !options.inOrder
        invariant Placed(argv[..], original, optind, firstNonopt, optind, used, left)
        invariant Whole() == Before(reports, used, left, ScanLine(options, original[optind..]))
      {
        SkipElement(argv[..], original, optind, firstNonopt, used, left);
        SkipScan(options, original, optind, reports, used, left);
        left := left + [argv[optind]];
        optind := optind + 1;
      }
      lastNonopt := optind;
    }
  
    // `--`: used up like an option; everything after it is left over.
    method EndAtDashes()
      requires 0 < optind < argv.Length == |original| && argv[optind] == "--"
      requires Scanning(ScanLine(options, original[optind..])) && (firstNonopt == lastNonopt || lastNonopt == optind)
      modifies this`optind, this`firstNonopt, this`lastNonopt, this`used, this`left, this`ended, argv
      ensures Finished()
    {
      hide Placed, Exchanged, ScanLine;
      PlacedOrder(argv[..], original, optind, firstNonopt, lastNonopt, used, left);
      DashScan(options, original, argv[..], optind, firstNonopt, lastNonopt, reports, used, left);
      UseElements(argv[..], original, optind, firstNonopt, lastNonopt, used, left, 1);
      used := used + ["--"];
      optind := optind + 1;
      GatherOptions();
      Partition(argv[..], original, optind, firstNonopt, used, left);
      left := left + original[optind..];
      lastNonopt := argv.Length;
      optind := argv.Length;
      if firstNonopt != lastNonopt { optind := firstNonopt; }
      ended := true;
    }

    // Moves the options processed last before the skipped elements; with none skipped, these would
    // start here.
    method GatherOptions()
      requires Placed(argv[..], original, optind, firstNonopt, lastNonopt, used, left) && lastNonopt <= optind
      requires firstNonopt == lastNonopt || lastNonopt < optind
      modifies this`firstNonopt, this`lastNonopt, argv
      ensures Placed(argv[..], original, optind, firstNonopt, optind, used, left)
    {
      hide Placed, Exchanged;
      PlacedOrder(argv[..], original, optind, firstNonopt, lastNonopt, used, left);
      ExchangePlaces(argv[..], original, optind, firstNonopt, lastNonopt, used, left);
      ExchangeOfOne(argv[..], firstNonopt, lastNonopt, optind);
      if firstNonopt != lastNonopt && lastNonopt != optind {
        Exchange();
      } else if firstNonopt == lastNonopt {
        firstNonopt := optind;
      }
    }

    // On to the next element that is an option, unless the scan ends before it.
    method NextElement() returns (eof: bool)
      requires 0 < optind <= argv.Length == |original| && nextchar == ""
      requires Scanning(ScanLine(options, original[optind..]))
      modifies this`optind, this`firstNonopt, this`lastNonopt, this`used, this`left, this`ended, argv
      ensures eof ==> Finished()
      ensures !eof ==> 0 < optind < argv.Length && Scanning(ScanLine(options, original[optind..]))
                       && IsOption(argv[optind]) && argv[optind] != "--" && argv[optind] == original[optind]
    {
      hide Placed, ScanLine;
      if !options.inOrder { SkipNonoptions(); }
      PlacedOrder(argv[..], original, optind, firstNonopt, lastNonopt, used, left);
      Ahead(argv[..], original, optind, firstNonopt, lastNonopt, used, left);
      if optind != argv.Length && argv[optind] == "--" {
        EndAtDashes();
        return true;
      }
      eof := optind == argv.Length || !IsOption(argv[optind]);
      if eof { EndHere(); }
    }

    // No more options, or with REQUIRE_ORDER an element that is none.
    method EndHere()
      requires 0 < optind <= argv.Length == |original| && Scanning(ScanLine(options, original[optind..]))
      requires optind < argv.Length ==> options.inOrder && !IsOption(original[optind])
      requires firstNonopt == lastNonopt || lastNonopt == optind
      modifies this`optind, this`ended
      ensures Finished()
    {
      hide Placed, Exchanged, ScanLine;
      PlacedOrder(argv[..], original, optind, firstNonopt, lastNonopt, used, left);
      EndScan(options, original, optind, reports, used, left);
      ExchangePlaces(argv[..], original, optind, firstNonopt, lastNonopt, used, left);
      ExchangeOfOne(argv[..], firstNonopt, lastNonopt, optind);
      Partition(argv[..], original, optind, firstNonopt + (optind - lastNonopt), used, left);
      if optind == argv.Length && firstNonopt != lastNonopt { optind := firstNonopt; }
      ended := true;
    }

    // The strchr of the option character.
    static method MyIndex(s: string, c: char) returns (k: nat)
      ensures k <= |s| && (k < |s| ==> s[k] == c) && forall j | 0 <= j < k :: s[j] != c
    {
      k := 0;
      while k < |s| && s[k] != c
        invariant k <= |s| && forall j | 0 <= j < k :: s[j] != c
      {
        k := k + 1;
      }
    }

    // The next option character of the element, and its argument.
    method DecodeChar() returns (r: Report)
      requires optind < argv.Length && nextchar != ""
      modifies this`optind, this`nextchar
      ensures var (report, more, takes) := ReadShort(options.optstring, old(nextchar), argv[old(optind) + 1..]);
              r == report && nextchar == more && optind == if more != "" then old(optind) else old(optind) + 1 + takes
    {
      hide KindOf;
      var c := nextchar[0];
      nextchar := nextchar[1..];
      var optarg: Maybe<string> := None;
      var optstring := options.optstring;
      var k := MyIndex(optstring, c);
      KindAt(optstring, c, k);
      if nextchar == "" { optind := optind + 1; }
      if k == |optstring| || c == ':' { return Report(Letter('?'), None, None); }
      if k + 1 < |optstring| && optstring[k + 1] == ':' {
        if k + 2 < |optstring| && optstring[k + 2] == ':' {
          if nextchar != "" {
            optarg := Some(nextchar);
            optind := optind + 1;
          }
        } else if nextchar != "" {
          optarg := Some(nextchar);
          optind := optind + 1;
        } else if optind == argv.Length {
          c := if optstring[0] == ':' then ':' else '?';
        } else {
          optarg := Some(argv[optind]);
          optind := optind + 1;
        }
        nextchar := "";
      }
      r := Report(Letter(c), optarg, None);
    }

    method ReadOptionChar() returns (r: Report)
      requires 0 < optind < argv.Length == |original| && nextchar != ""
      requires Scanning(ScanCluster(options, nextchar, original[optind..]))
      modifies this`optind, this`nextchar, this`reports, this`used
      ensures Valid() && 0 < optind && reports == old(reports) + [r]
    {
      hide Placed, ScanLine, ScanCluster;
      ghost var (text, at) := (nextchar, optind);
      PlacedOrder(argv[..], original, optind, firstNonopt, lastNonopt, used, left);
      TailAhead(argv[..], original, optind, firstNonopt, lastNonopt, used, left);
      assert argv[at + 1..] == argv[..][at + 1..];
      r := DecodeChar();
      hide ReadShort;
      ClusterStep(options, text, original, at, reports, used, left, r, nextchar, optind);
      if nextchar == "" {
        UseElements(argv[..], original, at, firstNonopt, lastNonopt, used, left, optind - at);
        used := used + original[at..][..optind - at];
      }
      reports := reports + [r];
    }

    // The loop over the table of long options.
    static method FindLong(opts: seq<LongOption>, key: string) returns (choice: Choice)
      ensures choice == Choose(opts, key)
    {
      var k: nat, found: Choice, ambig := 0, Missing, false;
      while k < |opts|
        invariant k <= |opts| && !found.Ambiguous? && forall j | 0 <= j < k :: opts[j].name != key
        invariant found.Missing? ==> !ambig && forall j | 0 <= j < k :: !Abbreviates(key, opts[j])
        invariant found.Chosen? ==> found.ix < k && Abbreviates(key, opts[found.ix])
        invariant found.Chosen? && !ambig ==> forall j | 0 <= j < k :: Abbreviates(key, opts[j]) <==> j == found.ix
        invariant ambig ==> exists i, j :: 0 <= i < j < k && Abbreviates(key, opts[i]) && Abbreviates(key, opts[j])
      {
        if key <= opts[k].name {
          if |key| == |opts[k].name| {
            choice := Chosen(k);
            ChoiceUnique(opts, key, choice, Choose(opts, key));
            return;
          } else if found.Missing? {
            found := Chosen(k);
          } else {
            ambig := true;
          }
        }
        k := k + 1;
      }
      choice := if ambig then Ambiguous else found;
      ChoiceUnique(opts, key, choice, Choose(opts, key));
    }

    // A long option and its argument, `text` being what follows its dashes.
    method DecodeLong(text: string, opts: seq<LongOption>) returns (r: Report)
      requires optind < argv.Length
      modifies this`optind
      ensures old(optind) < optind
      ensures (r, optind - old(optind) - 1) == ReadLong(options.optstring, opts, text, argv[old(optind) + 1..])
    {
      hide Choose;
      var s := MyIndex(text, '=');
      NameEnds(text, s);
      var choice := FindLong(opts, text[..s]);
      optind := optind + 1;
      if !choice.Chosen? { return Report(Letter('?'), None, None); }
      assert IsChoice(opts, text[..s], choice);
      var pfound, optarg: Maybe<string> := opts[choice.ix], None;
      if s < |text| {
        if pfound.hasArg == NoArgument { return Report(Letter('?'), None, None); }
        optarg := Some(text[s + 1..]);
      } else if pfound.hasArg == RequiredArgument {
        if optind == argv.Length {
          return Report(Letter(if options.optstring != "" && options.optstring[0] == ':' then ':' else '?'), None,
                        None);
        }
        optarg := Some(argv[optind]);
        optind := optind + 1;
      }
      r := Report(Value(if pfound.flagged then 0 else pfound.val), optarg, Some(choice.ix));
    }

    method ReadLongOption(text: string) returns (r: Report)
      requires 0 < optind < argv.Length == |original| && nextchar == "" && options.longopts.Some?
      requires Scanning(ScanLine(options, original[optind..]))
      requires argv[optind] == original[optind] && IsOption(argv[optind]) && argv[optind] != "--"
      requires IsLong(options, argv[optind]) && text == argv[optind][2..]
      modifies this`optind, this`reports, this`used
      ensures Valid() && 0 < optind && reports == old(reports) + [r]
    {
      hide Placed, ScanLine, ReadLong;
      ghost var at := optind;
      PlacedOrder(argv[..], original, optind, firstNonopt, lastNonopt, used, left);
      TailAhead(argv[..], original, optind, firstNonopt, lastNonopt, used, left);
      assert argv[at + 1..] == argv[..][at + 1..];
      r := DecodeLong(text, options.longopts.value);
      LongStep(options, original, at, reports, used, left, r, optind);
      UseElements(argv[..], original, at, firstNonopt, lastNonopt, used, left, optind - at);
      used := used + original[at..][..optind - at];
      reports := reports + [r];
    }

    /** _getopt_internal: one more report, or EOF. */
    method GetoptInternal() returns (r: Maybe<Report>)
      requires Valid()
      modifies this, argv
      ensures r.Some? ==> Valid() && 0 < optind && reports == old(reports) + [r.value]
      ensures r.None? ==> Finished() && reports == old(reports)
    {
      hide ScanLine, ScanCluster;
      if optind == 0 {
        firstNonopt, lastNonopt, optind := 1, 1, 1;
        StartScan(options, original, argv[..]);
      }
      if nextchar == "" {
        var eof := NextElement();
        if eof { return None; }
        ElementScan(options, original, optind);
        if IsLong(options, argv[optind]) {
          var rep := ReadLongOption(argv[optind][2..]);
          return Some(rep);
        }
        nextchar := argv[optind][1..];
      }
      var rep := ReadOptionChar();
      r := Some(rep);
    }

    /** The loop over all options: what is reported is what a scan from left to right of the original argv
        reports, so what the words of the line say; and argv ends up partitioned stably, words before everything
        else, with optind as the boundary. */
    method AllOptions() returns (all: seq<Report>)
      requires Valid() && reports == []
      modifies this, argv
      ensures all == ScanLine(options, original[1..]).reports
      ensures argv[..] == [original[0]] + ScanLine(options, original[1..]).used + ScanLine(options, original[1..]).left
      ensures optind == 1 + |ScanLine(options, original[1..]).used|
      ensures forall pieces, end | ProperLine(options, pieces, end) && Line(pieces, end) == original[1..] ::
                var told := Told(options, pieces, end);
                all == told.reports && argv[..] == [original[0]] + told.used + told.left && optind == 1 + |told.used|
    {
      hide ScanLine, ScanCluster, Placed, ProperLine, Line, Told;
      all := [];
      var r := GetoptInternal();
      while r.Some?
        invariant r.Some? ==> Valid() && 0 < optind && reports == all + [r.value]
        invariant r.None? ==> Finished() && reports == all
        decreases |Whole().reports| - |reports|, r.Some?
      {
        all := all + [r.value];
        r := GetoptInternal();
      }
      forall pieces, end | ProperLine(options, pieces, end) && Line(pieces, end) == original[1..]
        ensures Told(options, pieces, end) == ScanLine(options, original[1..])
      {
        LineIsTold(options, pieces, end);
      }
    }
  }

  lemma PlacedOrder(now: seq<string>, orig: seq<string>, optind: nat, first: nat, last: nat, used: seq<string>,
                    left: seq<string>)
    requires Placed(now, orig, optind, first, last, used, left)
    ensures 1 <= first <= last <= optind <= |now| == |orig|
  {
  }

  // Exchanging with an empty block changes nothing.
  lemma ExchangeOfOne(s: seq<string>, first: nat, last: nat, optind: nat)
    requires first <= last <= optind <= |s|
    ensures first == last || last == optind ==> Exchanged(s, first, last, optind) == s
  {
  }

  lemma SkipScan(o: Options, orig: seq<string>, optind: nat, reports: seq<Report>, used: seq<string>, left: seq<string>)
    requires optind < |orig| && !o.inOrder && !IsOption(orig[optind])
    ensures Before(reports, used, left, ScanLine(o, orig[optind..]))
            == Before(reports, used, left + [orig[optind]], ScanLine(o, orig[optind + 1..]))
  {
    var rest := ScanLine(o, orig[optind + 1..]);
    assert orig[optind..][1..] == orig[optind + 1..] && orig[optind..][0] == orig[optind];
    assert ScanLine(o, orig[optind..]) == Before([], [], [orig[optind]], rest);
    assert reports + ([] + rest.reports) == reports + rest.reports && used + ([] + rest.used) == used + rest.used;
    assert left + ([orig[optind]] + rest.left) == (left + [orig[optind]]) + rest.left;
  }

  // What lies ahead has not been touched.
  lemma Ahead(now: seq<string>, orig: seq<string>, optind: nat, first: nat, last: nat, used: seq<string>,
              left: seq<string>)
    requires Placed(now, orig, optind, first, last, used, left)
    ensures now[optind..] == orig[optind..] && (optind < |now| ==> now[optind] == orig[optind])
  {
    if optind < |now| { assert now[optind] == now[optind..][0]; }
  }

  lemma TailAhead(now: seq<string>, orig: seq<string>, optind: nat, first: nat, last: nat, used: seq<string>,
                  left: seq<string>)
    requires Placed(now, orig, optind, first, last, used, left) && optind < |now|
    ensures now[optind + 1..] == orig[optind + 1..]
  {
    assert now[optind + 1..] == now[optind..][1..] && orig[optind + 1..] == orig[optind..][1..];
  }

  // With the options together, argv is partitioned.
  lemma Partition(now: seq<string>, orig: seq<string>, optind: nat, first: nat, used: seq<string>, left: seq<string>)
    requires Placed(now, orig, optind, first, optind, used, left)
    ensures now == [orig[0]] + used + (left + orig[optind..]) && first == 1 + |used|
  {
    assert now == now[..1] + now[1..first] + (now[first..optind] + now[optind..]);
  }

  lemma DashScan(o: Options, orig: seq<string>, now: seq<string>, optind: nat, first: nat, last: nat,
                 reports: seq<Report>, used: seq<string>, left: seq<string>)
    requires Placed(now, orig, optind, first, last, used, left) && optind < |now| && now[optind] == "--"
    ensures orig[optind..][..1] == ["--"]
    ensures Before(reports, used, left, ScanLine(o, orig[optind..]))
            == Scan(reports, used + ["--"], left + orig[optind + 1..])
  {
    Ahead(now, orig, optind, first, last, used, left);
    assert orig[optind..][1..] == orig[optind + 1..] && orig[optind..][0] == "--";
  }

  lemma EndScan(o: Options, orig: seq<string>, optind: nat, reports: seq<Report>, used: seq<string>, left: seq<string>)
    requires optind == |orig| || (optind < |orig| && o.inOrder && !IsOption(orig[optind]))
    ensures Before(reports, used, left, ScanLine(o, orig[optind..])) == Scan(reports, used, left + orig[optind..])
  {
    if optind < |orig| { assert orig[optind..][0] == orig[optind]; }
  }

  lemma {:induction false} KindAt(optstring: string, c: char, k: nat)
    requires k <= |optstring| && (k < |optstring| ==> optstring[k] == c) && forall j | 0 <= j < k :: optstring[j] != c
    ensures KindOf(optstring, c) ==
            if k == |optstring| || c == ':' then Unknown
            else if k + 1 == |optstring| || optstring[k + 1] != ':' then Alone
            else if k + 2 == |optstring| || optstring[k + 2] != ':' then Required
            else Optional
    decreases k
  {
    if k > 0 {
      KindAt(optstring[1..], c, k - 1);
    }
  }

  lemma {:induction false} NameEnds(text: string, s: nat)
    requires s <= |text| && (s < |text| ==> text[s] == '=') && forall j | 0 <= j < s :: text[j] != '='
    ensures NameLength(text) == s
    decreases s
  {
    if s > 0 { NameEnds(text[1..], s - 1); }
  }

  lemma OneMoreReport(reports: seq<Report>, r: Report, used: seq<string>, more: seq<string>, left: seq<string>,
                      rest: Scan)
    ensures Before(reports, used, left, Before([r], more, [], rest)) == Before(reports + [r], used + more, left, rest)
  {
    assert reports + ([r] + rest.reports) == (reports + [r]) + rest.reports;
    assert used + (more + rest.used) == (used + more) + rest.used && left + ([] + rest.left) == left + rest.left;
  }

  // A step within an element of option characters, which may end it.
  lemma ClusterStep(o: Options, text: string, orig: seq<string>, at: nat, reports: seq<Report>, used: seq<string>,
                    left: seq<string>,
                    r: Report, more: string, next: nat)
    requires at < |orig| && text != "" && at <= next <= |orig|
    requires var (report, rest, takes) := ReadShort(o.optstring, text, orig[at + 1..]);
             r == report && more == rest && next == if more != "" then at else at + 1 + takes
    ensures var here := Before(reports, used, left, ScanCluster(o, text, orig[at..]));
            if more != "" then here == Before(reports + [r], used, left, ScanCluster(o, more, orig[at..]))
            else here == Before(reports + [r], used + orig[at..][..next - at], left, ScanLine(o, orig[next..]))
  {
    var args := orig[at..];
    assert args[1..] == orig[at + 1..];
    if more != "" {
      OneMoreReport(reports, r, used, [], left, ScanCluster(o, more, args));
      assert used + [] == used;
    } else {
      assert args[next - at..] == orig[next..];
      OneMoreReport(reports, r, used, args[..next - at], left, ScanLine(o, orig[next..]));
    }
  }

  lemma LongStep(o: Options, orig: seq<string>, at: nat, reports: seq<Report>, used: seq<string>, left: seq<string>,
                 r: Report, next: nat)
    requires at < |orig| && at < next <= |orig| && o.longopts.Some?
    requires IsOption(orig[at]) && orig[at] != "--" && IsLong(o, orig[at])
    requires ReadLong(o.optstring, o.longopts.value, orig[at][2..], orig[at + 1..]) == (r, next - at - 1)
    ensures Before(reports, used, left, ScanLine(o, orig[at..]))
            == Before(reports + [r], used + orig[at..][..next - at], left, ScanLine(o, orig[next..]))
  {
    var args := orig[at..];
    assert args[1..] == orig[at + 1..] && args[0] == orig[at] && args[next - at..] == orig[next..];
    OneMoreReport(reports, r, used, args[..next - at], left, ScanLine(o, orig[next..]));
  }

  // An element of option characters is read from its second character on.
  lemma ElementScan(o: Options, orig: seq<string>, at: nat)
    requires at < |orig| && IsOption(orig[at]) && orig[at] != "--"
    ensures !IsLong(o, orig[at]) ==> ScanLine(o, orig[at..]) == ScanCluster(o, orig[at][1..], orig[at..])
  {
    assert orig[at..][0] == orig[at];
  }

  lemma StartScan(o: Options, orig: seq<string>, now: seq<string>)
    requires orig != [] && now == orig
    ensures Placed(now, orig, 1, 1, 1, [], [])
    ensures ScanLine(o, orig[1..]) == Before([], [], [], ScanLine(o, orig[1..]))
  {
  }
}
