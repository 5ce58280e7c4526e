/** What a command line means: options, their arguments, and the other
    arguments, read off in one pass (engine/getopt.c). */
module Options {
  import opened Basics

  /** What one call of `getopt` reports: the character, and `optarg`. */
  datatype Event = Event(c: char, arg: Option<string>)

  /** What is reported, the elements that are used up by it, and the others. */
  datatype Trace = Trace(events: seq<Event>, opts: seq<string>, others: seq<string>)

  /** An element that is not an option. */
  predicate IsOther(s: string) {
    |s| < 2 || s[0] != '-'
  }

  /** The position of the first `c` (`my_index`). */
  function IndexOf(s: string, c: char): (k: Option<nat>)
    ensures k.Some? ==> k.value < |s| && s[k.value] == c && c !in s[..k.value]
    ensures k.None? <==> c !in s
  {
    if s == "" then None
    else if s[0] == c then Some(0)
    else
      match IndexOf(s[1..], c)
      case None => None
      case Some(k) => Some(k + 1)
  }

  datatype ArgMode = Illegal | NoArg | Optional | Required

  predicate ColonAt(s: string, k: nat) {
    k < |s| && s[k] == ':'
  }

  /** What the option string says about an option. */
  function ModeOf(optstring: string, c: char): ArgMode {
    var k := IndexOf(optstring, c);
    if k.None? || c == ':' then Illegal
    else if !ColonAt(optstring, k.value + 1) then NoArg
    else if ColonAt(optstring, k.value + 2) then Optional
    else Required
  }

  /** What is returned for a missing argument. */
  function Missing(optstring: string): char {
    if ColonAt(optstring, 0) then ':' else '?'
  }

  function Reported(e: Event, used: seq<string>, t: Trace): Trace {
    Trace([e] + t.events, used + t.opts, t.others)
  }

  /** What happens to other arguments: they are moved behind the options, they
      end the options, or they are reported like options. */
  datatype Ordering = PERMUTE | REQUIRE_ORDER | RETURN_IN_ORDER

  /** The ordering that an option string asks for, or the default. */
  function OrderingOf(optstring: string, normal: Ordering): Ordering {
    if optstring != "" && optstring[0] == '-' then RETURN_IN_ORDER
    else if optstring != "" && optstring[0] == '+' then REQUIRE_ORDER
    else normal
  }

  /** The option string without the character that asks for an ordering. */
  function Stripped(optstring: string): string {
    if optstring != "" && optstring[0] in ['-', '+'] then optstring[1..] else optstring
  }

  /** Only the first call leaves out the character that asks for an ordering.
      The others take it for an option, and all other options for the same. */
  lemma {:induction false} OrderingCharacter(optstring: string, c: char)
    requires optstring != "" && optstring[0] in ['-', '+']
    ensures if c == optstring[0] then ModeOf(optstring, c) != Illegal
            else ModeOf(optstring, c) == ModeOf(Stripped(optstring), c)
  {
    var k := IndexOf(optstring[1..], c);
    if c != optstring[0] && k.Some? {
      assert forall j | 0 <= j < |optstring| - 1 :: optstring[1..][j] == optstring[j + 1];
      assert ColonAt(optstring, k.value + 2) == ColonAt(optstring[1..], k.value + 1);
      assert ColonAt(optstring, k.value + 3) == ColonAt(optstring[1..], k.value + 2);
    }
  }

  /** The character returned for other arguments, if at all. */
  const OTHER: char := 1 as char

  /** The next option is looked up in `now`, the ones behind it in `later`. */
  datatype Rules = Rules(ord: Ordering, now: string, later: string) {
    function Next(): Rules { this.(now := later) }
  }

  /** The rest of a command line.  If `cur` is not empty, it is what remains of
      the option element `items[0]`. */
  function Rest(rules: Rules, cur: string, items: seq<string>): Trace
    decreases |items|, if cur == "" then 1 else 0, |cur|, 1
  {
    if items == [] then Trace([], [], [])
    else if cur != "" then RestOption(rules, cur, items)
    else if items[0] == "--" then Trace([], ["--"], items[1..])
    else if !IsOther(items[0]) then Rest(rules, items[0][1..], items)
    else
      match rules.ord
      case PERMUTE =>
        var t := Rest(rules, "", items[1..]);
        t.(others := [items[0]] + t.others)
      case REQUIRE_ORDER => Trace([], [], items)
      case RETURN_IN_ORDER =>
        Reported(Event(OTHER, Some(items[0])), [items[0]], Rest(rules.Next(), "", items[1..]))
  }

  function RestOption(rules: Rules, cur: string, items: seq<string>): (t: Trace)
    requires items != [] && cur != ""
    ensures t.events != []
    decreases |items|, 0, |cur|, 0
  {
    var c, more, mode := cur[0], cur[1..], ModeOf(rules.now, cur[0]);
    if mode == Illegal || mode == NoArg then
      var e := Event(if mode == Illegal then '?' else c, None);
      if more == "" then Reported(e, [items[0]], Rest(rules.Next(), "", items[1..]))
      else Reported(e, [], Rest(rules.Next(), more, items))
    else if more != "" then Reported(Event(c, Some(more)), [items[0]], Rest(rules.Next(), "", items[1..]))
    else if mode == Optional then Reported(Event(c, None), [items[0]], Rest(rules.Next(), "", items[1..]))
    else if |items| == 1 then Reported(Event(Missing(rules.now), None), [items[0]], Rest(rules.Next(), "", items[1..]))
    else Reported(Event(c, Some(items[1])), items[..2], Rest(rules.Next(), "", items[2..]))
  }

  /** `items` consists of the elements of `a` and those of `b`, in order. */
  predicate Interleaved(items: seq<string>, a: seq<string>, b: seq<string>) {
    if items == [] then a == [] && b == []
    else
      || (a != [] && a[0] == items[0] && Interleaved(items[1..], a[1..], b))
      || (b != [] && b[0] == items[0] && Interleaved(items[1..], a, b[1..]))
  }

  lemma {:induction false} InterleavedUsed(items: seq<string>, e: Event, n: nat, t: Trace)
    requires 1 <= n <= 2 && n <= |items| && Interleaved(items[n..], t.opts, t.others)
    ensures Interleaved(items, Reported(e, items[..n], t).opts, t.others)
  {
    var u := items[..n] + t.opts;
    assert u[1..] == items[..n][1..] + t.opts;
    if n == 2 {
      assert items[1..][1..] == items[2..] && u[1..][1..] == t.opts;
      assert Interleaved(items[1..], u[1..], t.others);
    } else {
      assert u[1..] == t.opts;
    }
  }

  lemma {:induction false} InterleavedOthers(items: seq<string>)
    ensures Interleaved(items, [], items)
  {
    if items != [] { InterleavedOthers(items[1..]); }
  }

  /** Nothing is lost, and the order is kept among the elements that are used
      and among the others. */
  lemma {:induction false} RestInterleaves(rules: Rules, cur: string, items: seq<string>)
    ensures var t := Rest(rules, cur, items); Interleaved(items, t.opts, t.others)
    decreases |items|, if cur == "" then 1 else 0, |cur|, 1
  {
    if items != [] {
      if cur != "" {
        OptionInterleaves(rules, cur, items);
      } else if items[0] == "--" {
        InterleavedOthers(items[1..]);
        assert ["--"][1..] == [];
      } else if !IsOther(items[0]) {
        RestInterleaves(rules, items[0][1..], items);
      } else {
        OtherInterleaves(rules, items);
      }
    }
  }

  lemma {:induction false} OtherInterleaves(rules: Rules, items: seq<string>)
    requires items != [] && IsOther(items[0]) && items[0] != "--"
    ensures var t := Rest(rules, "", items); Interleaved(items, t.opts, t.others)
    decreases |items|, 1, 0, 0
  {
    match rules.ord
    case PERMUTE =>
      RestInterleaves(rules, "", items[1..]);
      var t := Rest(rules, "", items[1..]);
      assert ([items[0]] + t.others)[1..] == t.others;
    case REQUIRE_ORDER =>
      InterleavedOthers(items);
    case RETURN_IN_ORDER =>
      RestInterleaves(rules.Next(), "", items[1..]);
      assert items[..1] == [items[0]];
      InterleavedUsed(items, Event(OTHER, Some(items[0])), 1, Rest(rules.Next(), "", items[1..]));
  }

  lemma {:induction false} OptionInterleaves(rules: Rules, cur: string, items: seq<string>)
    requires items != [] && cur != ""
    ensures var t := Rest(rules, cur, items); Interleaved(items, t.opts, t.others)
    decreases |items|, 0, |cur|, 0
  {
    var more, mode := cur[1..], ModeOf(rules.now, cur[0]);
    if (mode == Illegal || mode == NoArg) && more != "" {
      RestInterleaves(rules.Next(), more, items);
      var t := Rest(rules.Next(), more, items);
      assert [] + t.opts == t.opts;
    } else {
      var n := if mode == Required && more == "" && |items| > 1 then 2 else 1;
      RestInterleaves(rules.Next(), "", items[n..]);
      assert items[..1] == [items[0]];
      InterleavedUsed(items, Rest(rules, cur, items).events[0], n, Rest(rules.Next(), "", items[n..]));
    }
  }

  /** An interleaving has the elements of both parts. */
  lemma {:induction false} InterleavedElements(items: seq<string>, a: seq<string>, b: seq<string>)
    requires Interleaved(items, a, b)
    ensures multiset(items) == multiset(a) + multiset(b)
  {
    if items != [] {
      assert items == [items[0]] + items[1..];
      if a != [] && a[0] == items[0] && Interleaved(items[1..], a[1..], b) {
        InterleavedElements(items[1..], a[1..], b);
        assert a == [a[0]] + a[1..];
      } else {
        InterleavedElements(items[1..], a, b[1..]);
        assert b == [b[0]] + b[1..];
      }
    }
  }
}
