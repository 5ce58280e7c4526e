/** `getopt`: the state between calls, and the exchange of blocks of the
    argument vector (engine/getopt.c). */
module Getopt {
  import opened Basics
  import opened Options
  import opened CommandLines

  /** What has been reported and found so far. */
  datatype Found = Found(events: seq<Event>, opts: seq<string>, others: seq<string>)

  function Join(f: Found, t: Trace): Trace {
    Trace(f.events + t.events, f.opts + t.opts, f.others + t.others)
  }

  /** What has been found so far, and what the rest gives, is the whole. */
  ghost predicate Splits(rules: Rules, whole: Trace, f: Found, cur: string, items: seq<string>) {
    whole == Join(f, Rest(rules, cur, items))
  }

  /** The vector in state (first, last, at): options, other arguments, options
      since then, and what has not been scanned. */
  ghost predicate Layout(argv: seq<string>, original: seq<string>, first: int, last: int, at: int, f: Found) {
    && 1 <= first <= last <= at <= |argv| == |original|
    && argv[0] == original[0] && argv[at..] == original[at..]
    && f.opts == argv[1..first] + argv[last..at] && f.others == argv[first..last]
  }

  /** In every state the vector has the elements of the original one. */
  lemma {:induction false} LayoutPermutes(rules0: Rules, rules: Rules, argv: seq<string>, original: seq<string>,
                                          first: int, last: int, at: int, f: Found, cur: string)
    requires Layout(argv, original, first, last, at, f)
    requires Splits(rules, Rest(rules0, "", original[1..]), f, cur, original[at..])
    ensures multiset(argv) == multiset(original)
  {
    var whole, rest := Rest(rules0, "", original[1..]), Rest(rules, cur, original[at..]);
    RestInterleaves(rules0, "", original[1..]);
    InterleavedElements(original[1..], whole.opts, whole.others);
    RestInterleaves(rules, cur, original[at..]);
    InterleavedElements(original[at..], rest.opts, rest.others);
    assert original == [original[0]] + original[1..];
    LayoutElements(argv, first, last, at);
  }

  lemma {:induction false} LayoutElements(argv: seq<string>, first: int, last: int, at: int)
    requires 1 <= first <= last <= at <= |argv|
    ensures multiset(argv) == multiset([argv[0]]) + (multiset(argv[1..first]) + multiset(argv[last..at]))
                              + multiset(argv[first..last]) + multiset(argv[at..])
  {
    assert argv == [argv[0]] + argv[1..first] + argv[first..last] + argv[last..at] + argv[at..];
  }

  // ----- steps of the scan -----

  lemma {:induction false} SkipOther(rules: Rules, whole: Trace, f: Found, items: seq<string>)
    requires rules.ord == PERMUTE && items != [] && IsOther(items[0]) && Splits(rules, whole, f, "", items)
    ensures Splits(rules, whole, f.(others := f.others + [items[0]]), "", items[1..])
  {
  }

  /** While other arguments are skipped. */
  ghost predicate Skipping(
    rules: Rules, whole: Trace, v: seq<string>, original: seq<string>, first: int, at: int, f: Found) {
    Layout(v, original, first, at, at, f) && Splits(rules, whole, f, "", original[at..])
  }

  lemma {:induction false} SkipStep(
    rules: Rules, whole: Trace, v: seq<string>, original: seq<string>, first: int, at: int, f: Found)
    requires rules.ord == PERMUTE && Skipping(rules, whole, v, original, first, at, f) && at < |v| && IsOther(v[at])
    ensures Skipping(rules, whole, v, original, first, at + 1, f.(others := f.others + [v[at]]))
  {
    LayoutSkip(v, original, first, at, f);
    SkipOther(rules, whole, f, original[at..]);
  }

  lemma {:induction false} SkipDashes(rules: Rules, whole: Trace, f: Found, items: seq<string>)
    requires items != [] && items[0] == "--" && Splits(rules, whole, f, "", items)
    ensures whole == Trace(f.events, f.opts + ["--"], f.others + items[1..])
  {
  }

  lemma {:induction false} StartElement(rules: Rules, whole: Trace, f: Found, items: seq<string>)
    requires items != [] && items[0] != "--" && !IsOther(items[0]) && Splits(rules, whole, f, "", items)
    ensures Splits(rules, whole, f, items[0][1..], items)
  {
  }

  lemma {:induction false} StopAtOther(rules: Rules, whole: Trace, f: Found, items: seq<string>)
    requires rules.ord == REQUIRE_ORDER && items != [] && items[0] != "--" && IsOther(items[0])
             && Splits(rules, whole, f, "", items)
    ensures whole == Trace(f.events, f.opts, f.others + items)
  {
  }

  lemma {:induction false} ReportOther(rules: Rules, whole: Trace, f: Found, items: seq<string>)
    requires rules.ord == RETURN_IN_ORDER && items != [] && items[0] != "--" && IsOther(items[0])
             && Splits(rules, whole, f, "", items)
    ensures var f' := Found(f.events + [Event(OTHER, Some(items[0]))], f.opts + items[..1], f.others);
            Splits(rules.Next(), whole, f', "", items[1..])
  {
    var t := Rest(rules.Next(), "", items[1..]);
    assert items[..1] == [items[0]];
    Assoc(f.events, [Event(OTHER, Some(items[0]))], t.events);
    Assoc(f.opts, items[..1], t.opts);
  }

  /** Where the scan goes on after an option. */
  datatype After = After(c: char, arg: Option<string>, cur: string, used: nat)

  /** One option character; `used` elements are done with. */
  function OptionStep(optstring: string, cur: string, items: seq<string>): After
    requires cur != "" && items != []
  {
    var c, more, mode := cur[0], cur[1..], ModeOf(optstring, cur[0]);
    if mode == Illegal || mode == NoArg then
      After(if mode == Illegal then '?' else c, None, more, if more == "" then 1 else 0)
    else if more != "" then After(c, Some(more), "", 1)
    else if mode == Optional then After(c, None, "", 1)
    else if |items| == 1 then After(Missing(optstring), None, "", 1)
    else After(c, Some(items[1]), "", 2)
  }

  function WithOption(f: Found, a: After, items: seq<string>): Found
    requires a.used <= |items|
  {
    Found(f.events + [Event(a.c, a.arg)], f.opts + items[..a.used], f.others)
  }

  lemma {:induction false} OneOption(rules: Rules, whole: Trace, f: Found, cur: string, items: seq<string>)
    requires cur != "" && items != [] && Splits(rules, whole, f, cur, items)
    ensures var a := OptionStep(rules.now, cur, items);
            && a.used <= |items| && (a.cur != "" ==> a.used == 0)
            && Splits(rules.Next(), whole, WithOption(f, a, items), a.cur, items[a.used..])
  {
    var a := OptionStep(rules.now, cur, items);
    assert items[..1] == [items[0]] && items[0..] == items && items[..0] == [];
    var t := Rest(rules.Next(), a.cur, items[a.used..]);
    assert Rest(rules, cur, items) == Reported(Event(a.c, a.arg), items[..a.used], t);
    Assoc(f.events, [Event(a.c, a.arg)], t.events);
    Assoc(f.opts, items[..a.used], t.opts);
  }

  // ----- exchange -----

  /** Element `j` when `k` elements have been moved. */
  function Moved(v: seq<string>, from: nat, to: nat, k: nat, j: nat): string
    requires to <= from && from + k <= |v| && j < |v|
  {
    if to <= j < to + k then v[j - to + from] else v[j]
  }

  lemma {:induction false} MovedAll(v: seq<string>, v': seq<string>, from: nat, to: nat, n: nat)
    requires to <= from && from + n <= |v| == |v'| && forall j | 0 <= j < |v| :: v'[j] == Moved(v, from, to, n, j)
    ensures v' == v[..to] + v[from..from + n] + v[to + n..]
  {
  }

  /** `my_bcopy` within the vector. */
  method MoveDown(argv: array<string>, from: nat, to: nat, n: nat)
    requires to <= from && from + n <= argv.Length
    modifies argv
    ensures argv[..] == old(argv[..to]) + old(argv[from..from + n]) + old(argv[to + n..])
  {
    ghost var v := argv[..];
    var k := 0;
    while k < n
      invariant 0 <= k <= n
      invariant forall j | 0 <= j < argv.Length :: argv[j] == Moved(v, from, to, k, j)
    {
      argv[to + k] := argv[from + k];
      k := k + 1;
    }
    MovedAll(v, argv[..], from, to, n);
  }

  /** `my_bcopy` from a temporary. */
  method CopyIn(argv: array<string>, temp: seq<string>, to: nat)
    requires to + |temp| <= argv.Length
    modifies argv
    ensures argv[..] == old(argv[..to]) + temp + old(argv[to + |temp|..])
  {
    var k := 0;
    while k < |temp|
      invariant 0 <= k <= |temp|
      invariant argv[..] == old(argv[..to]) + temp[..k] + old(argv[to + k..])
    {
      argv[to + k] := temp[k];
      k := k + 1;
    }
    assert temp[..k] == temp;
  }

  /** The copying of `exchange`, with the first block saved in `temp`. */
  method SwapBlocks(argv: array<string>, temp: seq<string>, first: nat, last: nat, n: nat)
    requires first <= last && last + n <= argv.Length && temp == argv[first..last]
    modifies argv
    ensures argv[..] == old(argv[..first]) + old(argv[last..last + n]) + temp + old(argv[last + n..])
  {
    ghost var v := argv[..];
    MoveDown(argv, last, first, n);
    ghost var v1 := argv[..];
    CopyIn(argv, temp, first + n);
    BlocksSwapped(v, v1, argv[..], temp, first, last, n);
  }

  lemma {:induction false} BlocksSwapped(
    v: seq<string>, v1: seq<string>, v2: seq<string>, temp: seq<string>, first: nat, last: nat, n: nat)
    requires first <= last && last + n <= |v| && |temp| == last - first
    requires v1 == v[..first] + v[last..last + n] + v[first + n..]
    requires v2 == v1[..first + n] + temp + v1[first + n + |temp|..]
    ensures v2 == v[..first] + v[last..last + n] + temp + v[last + n..]
  {
    assert v1[..first + n] == v[..first] + v[last..last + n];
    assert v1[last + n..] == v[last + n..];
  }

  /** What `getopt` finds when it looks at an element. */
  datatype Element = Nothing | AnOther | AnOption

  class State {
    const optstring: string
    const argv: array<string>
    /** The ordering if the option string asks for none: `default_ordering`, or
        REQUIRE_ORDER with POSIXLY_CORRECT. */
    const normal: Ordering
    var ordering: Ordering
    var optind: int
    var nextchar: string
    var optarg: Option<string>
    var optopt: char
    var firstNonopt: int
    var lastNonopt: int
    ghost const original: seq<string>
    ghost var found: Found

    /** The first call leaves out the character that asks for an ordering, the
        others do not. */
    ghost function Start(): Rules {
      RulesOf(optstring, normal)
    }

    ghost function Whole(): Trace {
      Rest(Start(), "", if |original| > 0 then original[1..] else [])
    }

    /** The state in a call that looks up options in `now`. */
    ghost predicate Scanning(now: string)
      reads this, argv
    {
      && |original| == argv.Length > 0 && ordering == Start().ord && (nextchar != "" ==> 0 <= optind < argv.Length)
      && Layout(argv[..], original, firstNonopt, lastNonopt, optind, found)
      && (ordering != PERMUTE ==> firstNonopt == lastNonopt)
      && Splits(Start().(now := now), Whole(), found, nextchar, original[optind..])
    }

    ghost predicate Valid()
      reads this, argv
    {
      if optind == 0 then argv[..] == original && argv.Length > 0 && nextchar == "" && found.events == []
      else Scanning(optstring)
    }

    /** All options are reported; the vector is the program name, the options
        with their arguments, and from `optind` on the others. */
    ghost predicate Finished()
      reads this, argv
    {
      && |original| == argv.Length > 0
      && found.events == Whole().events && optind == 1 + |Whole().opts|
      && argv[..] == [original[0]] + Whole().opts + Whole().others
    }

    constructor (optstring: string, argv: array<string>, normal: Ordering)
      requires argv.Length > 0
      ensures Valid() && this.optstring == optstring && this.argv == argv && this.normal == normal
      ensures original == argv[..] && found.events == []
    {
      this.optstring, this.argv, this.normal := optstring, argv, normal;
      ordering, optind, nextchar, optarg, optopt, firstNonopt, lastNonopt := PERMUTE, 0, "", None, '?', 0, 0;
      original, found := argv[..], Found([], [], []);
    }

    /** `exchange` */
    method Exchange()
      requires 0 <= firstNonopt <= lastNonopt <= optind <= argv.Length
      modifies this`firstNonopt, this`lastNonopt, argv
      ensures argv[..] == old(argv[..firstNonopt]) + old(argv[lastNonopt..optind])
                        + old(argv[firstNonopt..lastNonopt]) + old(argv[optind..])
      ensures firstNonopt == old(firstNonopt) + (optind - old(lastNonopt)) && lastNonopt == optind
    {
      var first, last, n := firstNonopt, lastNonopt, optind - lastNonopt;
      var temp := argv[first..last];
      SwapBlocks(argv, temp, first, last, n);
      firstNonopt := first + n;
      lastNonopt := optind;
    }

    /** Options that follow other arguments go before them, and more other
        arguments are skipped. */
    method Permute(ghost now: string)
      requires Scanning(now) && ordering == PERMUTE && nextchar == ""
      modifies this`firstNonopt, this`lastNonopt, this`optind, this`found, argv
      ensures Scanning(now) && lastNonopt == optind && found.events == old(found.events)
      ensures optind < argv.Length ==> !IsOther(argv[optind])
    {
      GatherOptions(now);
      SkipOthers(Start().(now := now), Whole());
    }

    method SkipOthers(ghost rules: Rules, ghost whole: Trace)
      requires Skipping(rules, whole, argv[..], original, firstNonopt, optind, found) && rules.ord == PERMUTE
      modifies this`lastNonopt, this`optind, this`found
      ensures Skipping(rules, whole, argv[..], original, firstNonopt, optind, found) && lastNonopt == optind
      ensures found.events == old(found.events)
      ensures optind < argv.Length ==> !IsOther(argv[optind])
    {
      ghost var v := argv[..];
      while optind < argv.Length && IsOther(argv[optind])
        invariant 0 <= optind <= argv.Length && found.events == old(found.events)
        invariant Skipping(rules, whole, v, original, firstNonopt, optind, found)
      {
        SkipStep(rules, whole, v, original, firstNonopt, optind, found);
        found := found.(others := found.others + [v[optind]]);
        optind := optind + 1;
      }
      lastNonopt := optind;
    }

    method GatherOptions(ghost now: string)
      requires Scanning(now) && nextchar == ""
      modifies this`firstNonopt, this`lastNonopt, argv
      ensures Scanning(now) && lastNonopt == optind
    {
      ghost var v := argv[..];
      if firstNonopt != lastNonopt && lastNonopt != optind {
        Exchange();
        Exchanged(v, argv[..], original, old(firstNonopt), old(lastNonopt), optind, found);
      } else if lastNonopt != optind {
        LayoutEmpty(v, original, firstNonopt, optind, found);
        firstNonopt := optind;
        lastNonopt := optind;
      }
    }

    /** `_getopt_internal` without long options; None is EOF.  After EOF there
        are no more calls. */
    method Getopt() returns (r: Option<char>)
      requires Valid()
      modifies this, argv
      ensures r.Some? ==> Valid() && optind > 0 && found.events == old(found.events) + [Event(r.value, optarg)]
      ensures r.None? ==> Finished() && found.events == old(found.events)
      ensures multiset(argv[..]) == multiset(original)
    {
      optarg := None;
      var now := optstring;
      if optind == 0 { now := Begin(); }
      if nextchar == "" {
        var element := Look(now);
        match element
        case Nothing =>
          FinishedPermuted();
          return None;
        case AnOther =>
          Permuted(optstring);
          return Some(OTHER);
        case AnOption =>
      }
      var c := ShortOption(now);
      Permuted(optstring);
      return Some(c);
    }

    /** At the end, too, the vector is a permutation of the original one. */
    lemma FinishedPermuted()
      requires Finished() && argv[..] != []
      ensures multiset(argv[..]) == multiset(original)
    {
      RestInterleaves(Start(), "", original[1..]);
      InterleavedElements(original[1..], Whole().opts, Whole().others);
      assert original == [original[0]] + original[1..];
    }

    /** In every state the vector is a permutation of the original one. */
    lemma Permuted(now: string)
      requires Scanning(now)
      ensures multiset(argv[..]) == multiset(original)
    {
      LayoutPermutes(Start(), Start().(now := now), argv[..], original, firstNonopt, lastNonopt, optind, found,
        nextchar);
    }

    /** The first call. */
    method Begin() returns (now: string)
      requires Valid() && optind == 0
      modifies this`ordering, this`optind, this`firstNonopt, this`lastNonopt, this`found
      ensures now == Stripped(optstring) && Scanning(now) && found.events == old(found.events)
    {
      firstNonopt, lastNonopt, optind := 1, 1, 1;
      now := optstring;
      if |now| > 0 && now[0] == '-' {
        ordering := RETURN_IN_ORDER;
        now := now[1..];
      } else if |now| > 0 && now[0] == '+' {
        ordering := REQUIRE_ORDER;
        now := now[1..];
      } else {
        ordering := normal;
      }
      found := Found([], [], []);
      assert argv[1..1] == [];
    }

    /** Goes on with the next element, after other arguments if there are any. */
    method Look(now: string) returns (element: Element)
      requires Scanning(now) && nextchar == "" && optarg == None
      modifies this`optind, this`nextchar, this`optarg, this`firstNonopt, this`lastNonopt, this`found, argv
      ensures Seen(element, now, old(found.events))
    {
      if ordering == PERMUTE { Permute(now); }
      element := NextElement(now);
    }

    /** What is known after `element` has been looked at. */
    ghost predicate Seen(element: Element, now: string, events: seq<Event>)
      reads this, argv
    {
      match element
      case Nothing => Finished() && found.events == events
      case AnOther => Scanning(optstring) && optind > 0 && found.events == events + [Event(OTHER, optarg)]
      case AnOption => Scanning(now) && nextchar != "" && optarg == None && found.events == events
    }

    /** Looks at the next element of the vector. */
    method NextElement(now: string) returns (element: Element)
      requires Scanning(now) && nextchar == "" && optarg == None
      requires ordering == PERMUTE ==> lastNonopt == optind && (optind < argv.Length ==> !IsOther(argv[optind]))
      modifies this`optind, this`nextchar, this`optarg, this`firstNonopt, this`lastNonopt, this`found, argv
      ensures Seen(element, now, old(found.events))
    {
      ghost var items := original[optind..];
      assert optind < argv.Length ==> argv[..][optind..][0] == argv[optind] == items[0];
      if optind != argv.Length && argv[optind] == "--" {
        Dashes(now);
        return Nothing;
      }
      if optind == argv.Length {
        AllDone(now);
        return Nothing;
      }
      if IsOther(argv[optind]) {
        if ordering == REQUIRE_ORDER {
          StopHere(now);
          return Nothing;
        }
        ReturnOther(now);
        return AnOther;
      }
      StartElement(Start().(now := now), Whole(), found, items);
      nextchar := argv[optind][1..];
      return AnOption;
    }

    /** An argument that is reported like an option. */
    method ReturnOther(ghost now: string)
      requires Scanning(now) && nextchar == "" && ordering == RETURN_IN_ORDER
      requires optind < argv.Length && IsOther(argv[optind]) && argv[optind] != "--"
      modifies this`optind, this`optarg, this`found
      ensures Scanning(optstring) && optind > 0 && found.events == old(found.events) + [Event(OTHER, optarg)]
    {
      ghost var items := original[optind..];
      ReportOther(Start().(now := now), Whole(), found, items);
      LayoutUsed(argv[..], original, firstNonopt, lastNonopt, optind, 1, found, Event(OTHER, Some(items[0])));
      optarg := Some(argv[optind]);
      found := Found(found.events + [Event(OTHER, Some(items[0]))], found.opts + items[..1], found.others);
      optind := optind + 1;
    }

    /** An argument that ends the options. */
    method StopHere(ghost now: string)
      requires Scanning(now) && nextchar == "" && ordering == REQUIRE_ORDER && firstNonopt == lastNonopt
      requires optind < argv.Length && IsOther(argv[optind]) && argv[optind] != "--"
      ensures Finished()
    {
      StopAtOther(Start().(now := now), Whole(), found, original[optind..]);
      LayoutEmpty(argv[..], original, firstNonopt, optind, found);
      LayoutEnd(argv[..], original, optind, optind, found);
    }

    /** `--` ends the options; everything behind it is skipped. */
    method Dashes(ghost now: string)
      requires Scanning(now) && nextchar == "" && (ordering == PERMUTE ==> lastNonopt == optind)
      requires optind < argv.Length && argv[optind] == "--"
      modifies this`firstNonopt, this`lastNonopt, this`optind, this`found, argv
      ensures Finished() && found.events == old(found.events)
    {
      TakeDashes(now);
      MoveDashes();
      LayoutWhole(argv[..], original, firstNonopt, optind, found, Whole());
      FinishDashes();
    }

    method TakeDashes(ghost now: string)
      requires Scanning(now) && nextchar == "" && optind < argv.Length && argv[optind] == "--"
      modifies this`optind, this`found
      ensures Layout(argv[..], original, firstNonopt, lastNonopt, optind, found)
      ensures Whole() == Trace(found.events, found.opts, found.others + original[optind..])
      ensures found.events == old(found.events)
    {
      SkipDashes(Start().(now := now), Whole(), found, original[optind..]);
      LayoutDashes(argv[..], original, firstNonopt, lastNonopt, optind, found);
      Suffix(original, optind, 1);
      optind := optind + 1;
      found := found.(opts := found.opts + ["--"]);
    }

    /** Everything behind `--` counts as arguments. */
    method FinishDashes()
      requires firstNonopt <= argv.Length
      modifies this`lastNonopt, this`optind
      ensures optind == firstNonopt
    {
      lastNonopt := argv.Length;
      optind := argv.Length;
      if firstNonopt != lastNonopt { optind := firstNonopt; }
    }

    /** The options up to `--` go before the other arguments. */
    method MoveDashes()
      requires Layout(argv[..], original, firstNonopt, lastNonopt, optind, found)
      modifies this`firstNonopt, this`lastNonopt, argv
      ensures Layout(argv[..], original, firstNonopt, optind, optind, found)
    {
      ghost var v := argv[..];
      if firstNonopt != lastNonopt && lastNonopt != optind {
        Exchange();
        Exchanged(v, argv[..], original, old(firstNonopt), old(lastNonopt), optind, found);
      } else if firstNonopt == lastNonopt {
        LayoutEmpty(v, original, firstNonopt, optind, found);
        firstNonopt := optind;
      }
    }

    /** No elements are left. */
    method AllDone(ghost now: string)
      requires Scanning(now) && nextchar == "" && (ordering == PERMUTE ==> lastNonopt == optind)
               && optind == argv.Length
      modifies this`optind
      ensures Finished()
    {
      if firstNonopt == lastNonopt {
        LayoutEmpty(argv[..], original, firstNonopt, optind, found);
        LayoutEnd(argv[..], original, optind, optind, found);
      } else {
        LayoutEnd(argv[..], original, firstNonopt, optind, found);
        optind := firstNonopt;
      }
    }

    /** The next option character. */
    method ShortOption(now: string) returns (c: char)
      requires Scanning(now) && nextchar != "" && optarg == None
      modifies this`nextchar, this`optind, this`optopt, this`optarg, this`found
      ensures Scanning(optstring) && optind > 0 && found.events == old(found.events) + [Event(c, optarg)]
      ensures optopt == old(nextchar)[0]
    {
      ghost var items, v, at, f := original[optind..], argv[..], optind, found;
      OneOption(Start().(now := now), Whole(), f, nextchar, items);
      assert v[at..] == items;
      c := TakeOption(now);
      ghost var n := optind - at;
      LayoutUsed(v, original, firstNonopt, lastNonopt, at, n, f, Event(c, optarg));
      found := Found(f.events + [Event(c, optarg)], f.opts + items[..n], f.others);
      assert items[n..] == original[optind..];
    }

    method TakeOption(now: string) returns (c: char)
      requires nextchar != "" && optarg == None && 0 <= optind < argv.Length
      modifies this`nextchar, this`optind, this`optopt, this`optarg
      ensures var a := OptionStep(now, old(nextchar), argv[old(optind)..]);
              && c == a.c && optarg == a.arg && nextchar == a.cur && optind == old(optind) + a.used
              && optopt == old(nextchar)[0]
    {
      c := nextchar[0];
      var mode := ModeOf(now, c);
      nextchar := nextchar[1..];
      if nextchar == "" { optind := optind + 1; }
      optopt := c;
      if mode == Illegal { return '?'; }
      if mode == Optional {
        if nextchar != "" {
          optarg := Some(nextchar);
          optind := optind + 1;
        }
        nextchar := "";
      } else if mode == Required {
        if nextchar != "" {
          optarg := Some(nextchar);
          optind := optind + 1;
        } else if optind == argv.Length {
          c := Missing(now);
        } else {
          optarg := Some(argv[optind]);
          optind := optind + 1;
        }
        nextchar := "";
      }
    }
  }

  // ----- layouts -----

  lemma {:induction false} LayoutUsed(
    v: seq<string>, original: seq<string>, first: int, last: int, at: int, n: nat, f: Found, e: Event)
    requires Layout(v, original, first, last, at, f) && at + n <= |v|
    ensures Layout(v, original, first, last, at + n, Found(f.events + [e], f.opts + original[at..][..n], f.others))
    ensures original[at..][n..] == original[at + n..]
  {
    Suffix(v, at, n);
    Suffix(original, at, n);
    assert v[last..at + n] == v[last..at] + v[at..][..n];
  }

  lemma {:induction false} LayoutDashes(v: seq<string>, original: seq<string>, first: int, last: int, at: int, f: Found)
    requires Layout(v, original, first, last, at, f) && at < |v| && v[at] == "--"
    ensures Layout(v, original, first, last, at + 1, f.(opts := f.opts + ["--"])) && original[at..][0] == "--"
  {
    assert v[at..][0] == v[at];
    Suffix(v, at, 1);
    Suffix(original, at, 1);
    assert v[last..at + 1] == v[last..at] + ["--"];
  }

  /** What is not scanned counts among the others. */
  lemma {:induction false} LayoutEnd(v: seq<string>, original: seq<string>, first: int, at: int, f: Found)
    requires Layout(v, original, first, at, at, f)
    ensures v == [original[0]] + f.opts + (f.others + original[at..]) && first == 1 + |f.opts|
  {
    assert v[1..first] + v[at..at] == v[1..first];
    assert v == v[..1] + v[1..first] + v[first..at] + v[at..];
    assert v[..1] == [v[0]];
  }

  lemma {:induction false} LayoutWhole(
    v: seq<string>, original: seq<string>, first: int, at: int, f: Found, whole: Trace)
    requires Layout(v, original, first, at, at, f) && whole == Trace(f.events, f.opts, f.others + original[at..])
    ensures v == [original[0]] + whole.opts + whole.others && first == 1 + |whole.opts|
  {
    LayoutEnd(v, original, first, at, f);
  }

  lemma {:induction false} LayoutSkip(v: seq<string>, original: seq<string>, first: int, at: int, f: Found)
    requires Layout(v, original, first, at, at, f) && at < |v|
    ensures Layout(v, original, first, at + 1, at + 1, f.(others := f.others + [v[at]])) && v[at] == original[at..][0]
    ensures original[at..][1..] == original[at + 1..]
  {
    Suffix(v, at, 1);
    Suffix(original, at, 1);
    assert v[at..][0] == v[at];
  }

  lemma {:induction false} LayoutEmpty(v: seq<string>, original: seq<string>, first: int, at: int, f: Found)
    requires Layout(v, original, first, first, at, f)
    ensures Layout(v, original, at, at, at, f)
  {
    assert v[1..at] == v[1..first] + v[first..at];
  }

  lemma {:induction false} Exchanged(
    v: seq<string>, v': seq<string>, original: seq<string>, first: int, last: int, at: int, f: Found)
    requires Layout(v, original, first, last, at, f)
    requires v' == v[..first] + v[last..at] + v[first..last] + v[at..]
    ensures Layout(v', original, first + (at - last), at, at, f)
  {
    var mid := first + (at - last);
    assert v'[1..mid] == v[1..first] + v[last..at];
    assert v'[mid..at] == v[first..last];
    assert v'[at..] == v[at..];
    assert v'[1..mid] + v'[at..at] == v'[1..mid];
  }

  /** All has been reported; the vector is the program name, the options with
      their arguments, and from `optind` on the others. */
  ghost predicate Parsed(prog: string, argv: seq<string>, reported: seq<Event>, optind: int, t: Trace) {
    reported == t.events && optind == 1 + |t.opts| && argv == [prog] + t.opts + t.others
  }

  /** The calls of a program that handles all its options: they report what the
      command line means, and leave the other arguments behind the options.  If
      the command line was written to say something, that is what they report. */
  method ParseAll(optstring: string, argv: array<string>, normal: Ordering)
    returns (reported: seq<Event>, optind: int)
    requires argv.Length > 0
    modifies argv
    ensures var t := Rest(RulesOf(optstring, normal), "", old(argv[1..]));
            Parsed(old(argv[0]), argv[..], reported, optind, t) && Interleaved(old(argv[1..]), t.opts, t.others)
    ensures forall items, end | Proper(optstring, items, end) && Written(items, end) == old(argv[1..]) ::
              Parsed(old(argv[0]), argv[..], reported, optind, Meant(optstring, normal, items, end))
  {
    var st := new State(optstring, argv, normal);
    RestInterleaves(st.Start(), "", argv[1..]);
    ReadAsMeant(optstring, normal, argv[1..]);
    assert argv[..][1..] == argv[1..];
    reported := [];
    while true
      invariant st.Valid() && st.argv == argv && st.optstring == optstring && st.normal == normal
      invariant st.original == old(argv[..]) && fresh(st)
      invariant reported == st.found.events && |reported| <= |st.Whole().events|
      decreases |st.Whole().events| - |reported|
    {
      var c := st.Getopt();
      if c.None? { return reported, st.optind; }
      reported := reported + [Event(c.value, st.optarg)];
    }
  }
}
