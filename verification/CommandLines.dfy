/** Command lines written out from what they are meant to say, and that reading
    them gives it back (engine/getopt.c). */
module CommandLines {
  import opened Basics
  import opened Options

  // ----- what an option string says -----

  predicate StartsWith(s: string, c: char) {
    s != "" && s[0] == c
  }

  lemma {:induction false} IndexAfter(pre: string, c: char, post: string)
    requires c !in pre
    ensures IndexOf(pre + [c] + post, c) == Some(|pre|)
  {
    var s := pre + [c] + post;
    assert s[|pre|] == c && s[..|pre|] == pre;
  }

  /** An option stands for itself; one colon behind it means an argument, two an
      optional one. */
  lemma {:induction false} ModeIs(pre: string, c: char, post: string)
    requires c !in pre && c != ':'
    ensures var mode := ModeOf(pre + [c] + post, c);
            && (mode == NoArg <==> !StartsWith(post, ':'))
            && (mode == Required <==> StartsWith(post, ':') && !StartsWith(post[1..], ':'))
            && (mode == Optional <==> StartsWith(post, ':') && StartsWith(post[1..], ':'))
  {
    var s := pre + [c] + post;
    IndexAfter(pre, c, post);
    assert forall k | 0 <= k < |post| :: s[|pre| + 1 + k] == post[k];
  }

  lemma {:induction false} ModeIllegal(optstring: string, c: char)
    ensures ModeOf(optstring, c) == Illegal <==> c !in optstring || c == ':'
  {
  }

  // ----- items -----

  /** An option without argument, or an unknown one. */
  datatype Flag = Flag(c: char, known: bool)

  /** The last option of a word: none with an argument; one with the argument in
      the same word or in the next one; or one whose argument is optional and
      missing. */
  datatype Form = Only | Joined(c: char, x: string) | Apart(c: char, x: string) | Bare(c: char)

  /** Options, or another argument. */
  datatype Item = Word(flags: seq<Flag>, form: Form) | Other(s: string)

  /** How a command line ends: with `--` and more arguments, or with an option
      that lacks its argument. */
  datatype Ending = Done | Dashes(more: seq<string>) | Lacking(flags: seq<Flag>, c: char)

  function Chars(fs: seq<Flag>): (s: string)
    ensures |s| == |fs|
  {
    if fs == [] then "" else [fs[0].c] + Chars(fs[1..])
  }

  function FormText(form: Form): string {
    match form
    case Only => ""
    case Joined(c, x) => [c] + x
    case Apart(c, _) => [c]
    case Bare(c) => [c]
  }

  function NextWord(form: Form): seq<string> {
    if form.Apart? then [form.x] else []
  }

  function WordText(fs: seq<Flag>, form: Form): string {
    "-" + (Chars(fs) + FormText(form))
  }

  function Elements(i: Item): seq<string> {
    match i
    case Word(fs, form) => [WordText(fs, form)] + NextWord(form)
    case Other(s) => [s]
  }

  function EndElements(end: Ending): seq<string> {
    match end
    case Done => []
    case Dashes(more) => ["--"] + more
    case Lacking(fs, c) => [WordText(fs, Bare(c))]
  }

  /** The command line. */
  function Written(items: seq<Item>, end: Ending): seq<string> {
    if items == [] then EndElements(end) else Elements(items[0]) + Written(items[1..], end)
  }

  predicate FlagsOk(optstring: string, fs: seq<Flag>) {
    forall f | f in fs :: ModeOf(optstring, f.c) == if f.known then NoArg else Illegal
  }

  predicate FormOk(optstring: string, form: Form) {
    match form
    case Only => true
    case Joined(c, x) => ModeOf(optstring, c) in [Required, Optional] && x != ""
    case Apart(c, _) => ModeOf(optstring, c) == Required
    case Bare(c) => ModeOf(optstring, c) == Optional
  }

  /** The item is what the option string says, and is not taken for `-` or `--`. */
  predicate ItemOk(optstring: string, i: Item) {
    match i
    case Word(fs, form) => FlagsOk(optstring, fs) && FormOk(optstring, form) && WordText(fs, form) !in ["-", "--"]
    case Other(s) => !StartsWith(s, '-') || s == "-"
  }

  predicate EndOk(optstring: string, end: Ending) {
    end.Lacking? ==>
      FlagsOk(optstring, end.flags) && ModeOf(optstring, end.c) == Required && WordText(end.flags, Bare(end.c)) != "--"
  }

  predicate AllOk(optstring: string, items: seq<Item>, end: Ending) {
    (forall i | i in items :: ItemOk(optstring, i)) && EndOk(optstring, end)
  }

  // ----- what is meant -----

  function FlagEvent(f: Flag): Event {
    Event(if f.known then f.c else '?', None)
  }

  function FlagEvents(fs: seq<Flag>): seq<Event> {
    if fs == [] then [] else [FlagEvent(fs[0])] + FlagEvents(fs[1..])
  }

  function FormEvents(form: Form): seq<Event> {
    match form
    case Only => []
    case Joined(c, x) => [Event(c, Some(x))]
    case Apart(c, x) => [Event(c, Some(x))]
    case Bare(c) => [Event(c, None)]
  }

  function Before(events: seq<Event>, used: seq<string>, t: Trace): Trace {
    Trace(events + t.events, used + t.opts, t.others)
  }

  /** `colon` says whether the option string starts with a colon. */
  function EndMeaning(end: Ending, colon: bool): Trace {
    match end
    case Done => Trace([], [], [])
    case Dashes(more) => Trace([], ["--"], more)
    case Lacking(fs, _) =>
      Trace(FlagEvents(fs) + [Event(if colon then ':' else '?', None)], EndElements(end), [])
  }

  function Meaning(ord: Ordering, items: seq<Item>, end: Ending, colon: bool): Trace {
    if items == [] then EndMeaning(end, colon)
    else
      var rest := Meaning(ord, items[1..], end, colon);
      match items[0]
      case Word(fs, form) => Before(FlagEvents(fs) + FormEvents(form), Elements(items[0]), rest)
      case Other(s) =>
        match ord
        case PERMUTE => Trace(rest.events, rest.opts, [s] + rest.others)
        case REQUIRE_ORDER => Trace([], [], Written(items, end))
        case RETURN_IN_ORDER => Before([Event(OTHER, Some(s))], [s], rest)
  }

  // ----- reading what was written -----

  /** A flag in front of other options of the same word. */
  lemma {:induction false} FlagRest(rules: Rules, f: Flag, text: string, cur: string, items: seq<string>)
    requires FlagsOk(rules.now, [f]) && text == [f.c] + cur && items != []
    ensures Rest(rules, text, items) ==
            if cur == "" then Before([FlagEvent(f)], items[..1], Rest(rules.Next(), "", items[1..]))
            else Before([FlagEvent(f)], [], Rest(rules.Next(), cur, items))
  {
    assert f in [f];
    assert text[1..] == cur && items[..1] == [items[0]];
    assert Rest(rules, text, items) == RestOption(rules, text, items);
  }

  /** The last option of a word. */
  lemma {:induction false} FormRest(rules: Rules, form: Form, word: string, more: seq<string>)
    requires FormOk(rules.now, form) && form != Only
    ensures Rest(rules, FormText(form), [word] + NextWord(form) + more) ==
            Before(FormEvents(form), [word] + NextWord(form), Rest(rules.Next(), "", more))
  {
    var items, cur := [word] + NextWord(form) + more, FormText(form);
    assert Rest(rules, cur, items) == RestOption(rules, cur, items);
    match form
    case Joined(c, x) => assert cur[1..] == x && items[1..] == more;
    case Apart(c, x) => assert cur[1..] == "" && items[1] == x && items[2..] == more && items[..2] == [word, x];
    case Bare(c) => assert cur[1..] == "" && items[1..] == more;
  }

  lemma {:induction false} FlagsTail(optstring: string, fs: seq<Flag>)
    requires FlagsOk(optstring, fs) && fs != []
    ensures FlagsOk(optstring, [fs[0]]) && FlagsOk(optstring, fs[1..])
  {
    forall f | f in fs[1..] ensures f in fs {}
  }

  lemma {:induction false} MoreFlags(fs: seq<Flag>, form: Form, used: seq<string>, t: Trace)
    requires fs != []
    ensures Before([FlagEvent(fs[0])], [], Before(FlagEvents(fs[1..]) + FormEvents(form), used, t)) ==
            Before(FlagEvents(fs) + FormEvents(form), used, t)
    ensures fs[1..] == [] && form == Only ==>
              Before([FlagEvent(fs[0])], used, t) == Before(FlagEvents(fs) + FormEvents(form), used, t)
  {
    var a, b := [FlagEvent(fs[0])], FlagEvents(fs[1..]);
    assert FlagEvents(fs) == a + b;
    Assoc(a, b, FormEvents(form));
    Assoc(a, b + FormEvents(form), t.events);
  }

  /** All options of a word. */
  lemma {:induction false} WordRest(rules: Rules, fs: seq<Flag>, form: Form, word: string, more: seq<string>)
    requires FlagsOk(rules.now, fs) && FlagsOk(rules.later, fs) && (fs != [] || form != Only)
    requires FormOk(rules.now, form) && FormOk(rules.later, form)
    ensures Rest(rules, Chars(fs) + FormText(form), [word] + NextWord(form) + more) ==
            Before(FlagEvents(fs) + FormEvents(form), [word] + NextWord(form), Rest(rules.Next(), "", more))
    decreases |fs|
  {
    if fs == [] {
      FormRest(rules, form, word, more);
      assert "" + FormText(form) == FormText(form) && [] + FormEvents(form) == FormEvents(form);
    } else {
      WordFlag(rules, fs, form, word, more);
      FlagsTail(rules.later, fs);
      MoreFlags(fs, form, [word] + NextWord(form), Rest(rules.Next(), "", more));
      if Chars(fs[1..]) + FormText(form) != "" {
        WordRest(rules.Next(), fs[1..], form, word, more);
      }
    }
  }

  /** The first flag of a word. */
  lemma {:induction false} WordFlag(rules: Rules, fs: seq<Flag>, form: Form, word: string, more: seq<string>)
    requires FlagsOk(rules.now, fs) && fs != []
    ensures var cur := Chars(fs[1..]) + FormText(form); var items := [word] + NextWord(form) + more;
            Rest(rules, Chars(fs) + FormText(form), items) ==
            if cur == "" then Before([FlagEvent(fs[0])], [word] + NextWord(form), Rest(rules.Next(), "", more))
            else Before([FlagEvent(fs[0])], [], Rest(rules.Next(), cur, items))
  {
    var cur, items := Chars(fs[1..]) + FormText(form), [word] + NextWord(form) + more;
    FlagsTail(rules.now, fs);
    WordTail(fs, form);
    FlagRest(rules, fs[0], Chars(fs) + FormText(form), cur, items);
    if cur == "" { NothingLeft(fs[1..], form, word, more); }
  }

  lemma {:induction false} WordTail(fs: seq<Flag>, form: Form)
    requires fs != []
    ensures Chars(fs) + FormText(form) == [fs[0].c] + (Chars(fs[1..]) + FormText(form))
  {
  }

  lemma {:induction false} NothingLeft(fs: seq<Flag>, form: Form, word: string, more: seq<string>)
    requires Chars(fs) + FormText(form) == ""
    ensures fs == [] && form == Only
    ensures var items := [word] + NextWord(form) + more; items[1..] == more && items[..1] == [word] + NextWord(form)
  {
    assert |Chars(fs)| + |FormText(form)| == 0;
  }

  /** A word in front of the rest of the command line. */
  lemma {:induction false} WordFirst(rules: Rules, fs: seq<Flag>, form: Form, more: seq<string>)
    requires ItemOk(rules.now, Word(fs, form)) && ItemOk(rules.later, Word(fs, form))
    ensures var used := Elements(Word(fs, form));
            Rest(rules, "", used + more) ==
            Before(FlagEvents(fs) + FormEvents(form), used, Rest(rules.Next(), "", more))
  {
    var text, word, items := Chars(fs) + FormText(form), WordText(fs, form), Elements(Word(fs, form)) + more;
    assert word[0] == '-' && word[1..] == text && items[0] == word;
    assert "-" + "" == "-";
    assert Rest(rules, "", items) == Rest(rules, text, items);
    WordRest(rules, fs, form, word, more);
  }

  /** An option that lacks its argument. */
  lemma {:induction false} LackingLast(rules: Rules, c: char, word: string)
    requires ModeOf(rules.now, c) == Required
    ensures Rest(rules, [c], [word]) == Trace([Event(Missing(rules.now), None)], [word], [])
  {
    var e, t := Event(Missing(rules.now), None), Rest(rules.Next(), "", []);
    assert Rest(rules, [c], [word]) == RestOption(rules, [c], [word]);
    assert [c][1..] == "" && [word][1..] == [];
    assert [e] + t.events == [e] && [word] + t.opts == [word];
  }

  /** The options of a word whose last one lacks its argument. */
  lemma {:induction false} LackingRest(rules: Rules, fs: seq<Flag>, c: char, word: string, colon: bool)
    requires FlagsOk(rules.now, fs) && FlagsOk(rules.later, fs)
    requires ModeOf(rules.now, c) == ModeOf(rules.later, c) == Required
    requires colon == ColonAt(rules.now, 0) == ColonAt(rules.later, 0)
    ensures Rest(rules, Chars(fs) + [c], [word]) ==
            Trace(FlagEvents(fs) + [Event(if colon then ':' else '?', None)], [word], [])
    decreases |fs|
  {
    var e := Event(if colon then ':' else '?', None);
    if fs == [] {
      LackingLast(rules, c, word);
      assert Chars(fs) + [c] == [c] && FlagEvents(fs) + [e] == [e];
    } else {
      var text, cur := Chars(fs) + [c], Chars(fs[1..]) + [c];
      FlagsTail(rules.now, fs);
      FlagsTail(rules.later, fs);
      assert text == [fs[0].c] + cur;
      FlagRest(rules, fs[0], text, cur, [word]);
      LackingRest(rules.Next(), fs[1..], c, word, colon);
      Assoc([FlagEvent(fs[0])], FlagEvents(fs[1..]), [e]);
      assert [] + [word] == [word];
    }
  }

  lemma {:induction false} EndRest(rules: Rules, end: Ending, colon: bool)
    requires EndOk(rules.now, end) && EndOk(rules.later, end)
    requires end.Lacking? ==> colon == ColonAt(rules.now, 0) == ColonAt(rules.later, 0)
    ensures Rest(rules, "", EndElements(end)) == EndMeaning(end, colon)
  {
    match end
    case Done =>
    case Dashes(more) => assert (["--"] + more)[1..] == more;
    case Lacking(fs, c) =>
      var word := WordText(fs, Bare(c));
      assert word[0] == '-' && word[1..] == Chars(fs) + [c];
      LackingRest(rules, fs, c, word, colon);
      assert Rest(rules, "", [word]) == Rest(rules, word[1..], [word]);
  }

  lemma {:induction false} OtherFirst(rules: Rules, s: string, more: seq<string>)
    requires IsOther(s)
    ensures Rest(rules, "", [s] + more) ==
            match rules.ord
            case PERMUTE => var t := Rest(rules, "", more); Trace(t.events, t.opts, [s] + t.others)
            case REQUIRE_ORDER => Trace([], [], [s] + more)
            case RETURN_IN_ORDER => Before([Event(OTHER, Some(s))], [s], Rest(rules.Next(), "", more))
  {
    assert ([s] + more)[1..] == more;
  }

  lemma {:induction false} AllOkTail(optstring: string, items: seq<Item>, end: Ending)
    requires AllOk(optstring, items, end) && items != []
    ensures ItemOk(optstring, items[0]) && AllOk(optstring, items[1..], end)
  {
    assert items[0] in items;
    forall i | i in items[1..] ensures i in items {}
  }

  /** Reading a command line gives back what it was meant to say, in each of the
      three orderings. */
  lemma {:induction false} WrittenRest(rules: Rules, items: seq<Item>, end: Ending, colon: bool)
    requires AllOk(rules.now, items, end) && AllOk(rules.later, items, end)
    requires end.Lacking? ==> colon == ColonAt(rules.now, 0) == ColonAt(rules.later, 0)
    ensures Rest(rules, "", Written(items, end)) == Meaning(rules.ord, items, end, colon)
    decreases |items|
  {
    if items == [] {
      EndRest(rules, end, colon);
    } else {
      AllOkTail(rules.now, items, end);
      AllOkTail(rules.later, items, end);
      var more := Written(items[1..], end);
      match items[0]
      case Word(fs, form) =>
        WrittenRest(rules.Next(), items[1..], end, colon);
        WordFirst(rules, fs, form, more);
      case Other(s) =>
        WrittenRest(if rules.ord == PERMUTE then rules else rules.Next(), items[1..], end, colon);
        OtherFirst(rules, s, more);
    }
  }

  /** The rules of a program with this option string. */
  function RulesOf(optstring: string, normal: Ordering): Rules {
    Rules(OrderingOf(optstring, normal), Stripped(optstring), optstring)
  }

  /** A leading `-` or `+` asks for an ordering, and is not an option at first. */
  lemma {:induction false} RulesAre(s: string, normal: Ordering)
    ensures RulesOf("-" + s, normal) == Rules(RETURN_IN_ORDER, s, "-" + s)
    ensures RulesOf("+" + s, normal) == Rules(REQUIRE_ORDER, s, "+" + s)
    ensures !StartsWith(s, '-') && !StartsWith(s, '+') ==> RulesOf(s, normal) == Rules(normal, s, s)
  {
    assert ("-" + s)[1..] == s && ("+" + s)[1..] == s;
  }

  /** The option string says of all options what is meant, in the first call and
      in later ones. */
  predicate Proper(optstring: string, items: seq<Item>, end: Ending) {
    && AllOk(optstring, items, end) && AllOk(Stripped(optstring), items, end)
    && (end.Lacking? ==> ColonAt(optstring, 0) == ColonAt(Stripped(optstring), 0))
  }

  /** What a program that takes a command line for `args` gets to know of it. */
  function Meant(optstring: string, normal: Ordering, items: seq<Item>, end: Ending): Trace {
    Meaning(OrderingOf(optstring, normal), items, end, ColonAt(optstring, 0))
  }

  lemma {:induction false} ReadAsMeant(optstring: string, normal: Ordering, args: seq<string>)
    ensures forall items, end | Proper(optstring, items, end) && Written(items, end) == args ::
              Rest(RulesOf(optstring, normal), "", args) == Meant(optstring, normal, items, end)
  {
    forall items, end | Proper(optstring, items, end) && Written(items, end) == args
      ensures Rest(RulesOf(optstring, normal), "", args) == Meant(optstring, normal, items, end)
    {
      WrittenRest(RulesOf(optstring, normal), items, end, ColonAt(optstring, 0));
    }
  }

  lemma {:induction false} ApartOk(optstring: string, c: char, x: string)
    requires ModeOf(optstring, c) == Required && c != '-'
    ensures AllOk(optstring, [Word([], Apart(c, x))], Done)
    ensures WordText([], Apart(c, x)) == "-" + [c]
  {
    var word := "-" + [c];
    assert WordText([], Apart(c, x)) == word;
    assert |word| == 2 && word[1] == c && "--"[1] == '-';
    assert ItemOk(optstring, Word([], Apart(c, x)));
  }

  lemma {:induction false} ApartMeaning(ord: Ordering, c: char, x: string, colon: bool)
    ensures Written([Word([], Apart(c, x))], Done) == ["-" + [c], x]
    ensures Meaning(ord, [Word([], Apart(c, x))], Done, colon) == Trace([Event(c, Some(x))], ["-" + [c], x], [])
  {
    var item, used := Word([], Apart(c, x)), ["-" + [c], x];
    assert Chars([]) + [c] == [c];
    assert Elements(item) == used && used + [] == used && [item][1..] == [];
    var e := Event(c, Some(x));
    assert FlagEvents([]) + FormEvents(Apart(c, x)) == [e] && [e] + [] == [e];
  }

  lemma {:induction false} OneColon(pre: string, c: char, post: string)
    requires c !in pre && c != ':' && (pre == "" ==> c !in ['-', '+']) && !StartsWith(post, ':')
    ensures var optstring := pre + [c] + (":" + post);
            ModeOf(optstring, c) == ModeOf(Stripped(optstring), c) == Required
  {
    var optstring := pre + [c] + (":" + post);
    assert (":" + post)[1..] == post;
    ModeIs(pre, c, ":" + post);
    if optstring[0] in ['-', '+'] {
      assert pre != "" && optstring[0] == pre[0];
      OrderingCharacter(optstring, c);
    }
  }

  /** An option that is followed by one colon takes the next word as its argument,
      whatever that is. */
  lemma {:induction false} SeparateArgument(pre: string, c: char, post: string, x: string, normal: Ordering)
    requires c !in pre && c !in [':', '-'] && (pre == "" ==> c != '+') && !StartsWith(post, ':')
    ensures var optstring := pre + [c] + (":" + post);
            Rest(RulesOf(optstring, normal), "", ["-" + [c], x]) == Trace([Event(c, Some(x))], ["-" + [c], x], [])
  {
    var optstring := pre + [c] + (":" + post);
    OneColon(pre, c, post);
    ArgumentRead(RulesOf(optstring, normal), c, x);
  }

  lemma {:induction false} ArgumentRead(rules: Rules, c: char, x: string)
    requires ModeOf(rules.now, c) == ModeOf(rules.later, c) == Required && c != '-'
    ensures Rest(rules, "", ["-" + [c], x]) == Trace([Event(c, Some(x))], ["-" + [c], x], [])
  {
    ApartOk(rules.now, c, x);
    ApartOk(rules.later, c, x);
    ApartMeaning(rules.ord, c, x, false);
    WrittenRest(rules, [Word([], Apart(c, x))], Done, false);
  }
}
