/** Command lines as their authors mean them: options with the arguments they take, and operands. Every argument
    vector is the text of such a command line, and getopt_long of lib/util/getopt_long.c returns what it means. */
module GetoptItems {
  import opened Wrappers
  import opened Getopt

  // ----- What the option string declares -----

  predicate At(s: string, k: int, c: char) {
    0 <= k < |s| && s[k] == c
  }

  /** The first occurrence of the letter counts. */
  predicate DeclaredAt(options: string, c: char, k: int) {
    At(options, k, c) && forall i :: 0 <= i < k ==> options[i] != c
  }

  datatype Kind = Undeclared | Flag | Required | Optional | LongLetter

  /** A letter alone, with one colon or with two; "W;" announces a long option. */
  predicate KindAt(options: string, c: char, k: int, kind: Kind) {
    && DeclaredAt(options, c, k)
    && match kind
       case Undeclared => false
       case Flag => !At(options, k + 1, ':') && !(c == 'W' && At(options, k + 1, ';'))
       case Required => At(options, k + 1, ':') && !At(options, k + 2, ':')
       case Optional => At(options, k + 1, ':') && At(options, k + 2, ':')
       case LongLetter => c == 'W' && At(options, k + 1, ';')
  }

  ghost predicate Declares(options: string, c: char, kind: Kind) {
    if kind.Undeclared? then c == ':' || c !in options else c != ':' && exists k :: KindAt(options, c, k, kind)
  }

  /** What is returned when an argument is missing, or there is one too many: ':' if the option string begins
      with a colon, and '?' otherwise. */
  function MissingCode(cfg: Config): int {
    if At(cfg.options, 0, ':') then 58 else 63
  }

  const UNKNOWN_CODE := 63

  // ----- Long options -----

  /** name or name=value, the separate argument if it is taken, and the option that is meant. */
  datatype Long = Long(name: string, value: Option<string>, next: Option<string>, which: LongMatch)

  function LongText(l: Long): string {
    l.name + if l.value.Some? then "=" + l.value.value else ""
  }

  function LongArgs(l: Long): seq<string> {
    if l.next.Some? then [l.next.value] else []
  }

  /** `more` says that arguments follow. */
  predicate LongOk(cfg: Config, l: Long, more: bool) {
    && '=' !in l.name
    && match l.which
       case Unknown => l.next.None? && forall k :: 0 <= k < |cfg.longOptions| ==> !(l.name <= cfg.longOptions[k].name)
       case Ambiguous => l.next.None? && !HasExact(cfg.longOptions, l.name) && HasConflict(cfg.longOptions, l.name)
       case Found(i) =>
         && i < |cfg.longOptions| && IsMatch(cfg.longOptions, l.name, i)
         && var wants := cfg.longOptions[i].hasArg == RequiredArgument && l.value.None?;
            if l.next.Some? then wants else wants ==> !more
  }

  /** An option with a flag of the caller's returns 0, any other its value. */
  function LongEvent(cfg: Config, l: Long): Event {
    if !l.which.Found? || l.which.index >= |cfg.longOptions| then Event(UNKNOWN_CODE, None)
    else
      var o := cfg.longOptions[l.which.index];
      var code := if o.flag == 0 then o.val else 0;
      match o.hasArg
      case NoArgument => if l.value.Some? then Event(MissingCode(cfg), None) else Event(code, None)
      case OptionalArgument => Event(code, l.value)
      case RequiredArgument =>
        if l.value.Some? then Event(code, l.value)
        else if l.next.Some? then Event(code, l.next)
        else Event(MissingCode(cfg), None)
  }

  // ----- Items -----

  /** How an argument with letters ends. */
  datatype Ending =
    | Nothing
    | Attached(c: char, text: string)
    | Separate(c: char, arg: string)
    | Omitted(c: char)
    | Missing(c: char)
    | LongTail(l: Long)
    | LongAttached(l: Long)
    | LongSeparate(l: Long)
    | LongMissing

  function EndingText(e: Ending): string {
    match e
    case Nothing => ""
    case Attached(c, text) => [c] + text
    case Separate(c, _) => [c]
    case Omitted(c) => [c]
    case Missing(c) => [c]
    case LongTail(l) => "-" + LongText(l)
    case LongAttached(l) => "W" + LongText(l)
    case LongSeparate(_) => "W"
    case LongMissing => "W"
  }

  function EndingArgs(e: Ending): seq<string> {
    match e
    case Separate(_, arg) => [arg]
    case LongTail(l) => LongArgs(l)
    case LongAttached(l) => LongArgs(l)
    case LongSeparate(l) => [LongText(l)] + LongArgs(l)
    case _ => []
  }

  function EndingEvents(cfg: Config, e: Ending): seq<Event> {
    match e
    case Nothing => []
    case Attached(c, text) => [Event(c as int, Some(text))]
    case Separate(c, arg) => [Event(c as int, Some(arg))]
    case Omitted(c) => [Event(c as int, None)]
    case Missing(_) => [Event(MissingCode(cfg), None)]
    case LongTail(l) => [LongEvent(cfg, l)]
    case LongAttached(l) => [LongEvent(cfg, l)]
    case LongSeparate(l) => [LongEvent(cfg, l)]
    case LongMissing => [Event(MissingCode(cfg), None)]
  }

  ghost predicate EndingOk(cfg: Config, e: Ending, more: bool) {
    match e
    case Nothing => true
    case Attached(c, text) => text != "" && (Declares(cfg.options, c, Required) || Declares(cfg.options, c, Optional))
    case Separate(c, _) => Declares(cfg.options, c, Required)
    case Omitted(c) => Declares(cfg.options, c, Optional)
    case Missing(c) => Declares(cfg.options, c, Required) && !more
    case LongTail(l) => LongOk(cfg, l, more)
    case LongAttached(l) => Declares(cfg.options, 'W', LongLetter) && LongText(l) != "" && LongOk(cfg, l, more)
    case LongSeparate(l) => Declares(cfg.options, 'W', LongLetter) && LongOk(cfg, l, more)
    case LongMissing => Declares(cfg.options, 'W', LongLetter) && !more
  }

  /** A dash alone is never the letter of a longer argument: there it starts a long option. */
  predicate NoDash(e: Ending) {
    (e.Attached? || e.Separate? || e.Omitted? || e.Missing?) ==> e.c != '-'
  }

  datatype Item = Operand(arg: string) | Letters(flags: string, ending: Ending) | Dash(ending: Ending)

  function ItemArgs(x: Item): seq<string> {
    match x
    case Operand(arg) => [arg]
    case Letters(flags, e) => ["-" + flags + EndingText(e)] + EndingArgs(e)
    case Dash(e) => ["-"] + EndingArgs(e)
  }

  /** A flag is returned as it is, an undeclared letter as '?'. */
  function FlagEvents(cfg: Config, flags: string): seq<Event> {
    if flags == "" then [] else [FlagEvent(cfg, flags[0])] + FlagEvents(cfg, flags[1..])
  }

  function FlagEvent(cfg: Config, c: char): Event {
    Event(if c == ':' || c !in cfg.options then UNKNOWN_CODE else c as int, None)
  }

  function ItemEvents(cfg: Config, x: Item): seq<Event> {
    match x
    case Operand(_) => []
    case Letters(flags, e) => FlagEvents(cfg, flags) + EndingEvents(cfg, e)
    case Dash(e) => if e.Nothing? then [Event('-' as int, None)] else EndingEvents(cfg, e)
  }

  ghost predicate FlagsOk(cfg: Config, flags: string) {
    forall i :: 0 <= i < |flags| ==>
      flags[i] != '-' && (Declares(cfg.options, flags[i], Flag) || Declares(cfg.options, flags[i], Undeclared))
  }

  ghost predicate ItemOk(cfg: Config, x: Item, more: bool) {
    match x
    case Operand(arg) => arg == "" || arg[0] != '-' || (arg == "-" && '-' !in cfg.options)
    case Letters(flags, e) =>
      && FlagsOk(cfg, flags) && EndingOk(cfg, e, more) && NoDash(e) && flags + EndingText(e) != ""
      && flags + EndingText(e) != "-"
    case Dash(e) =>
      || (e.Nothing? && Declares(cfg.options, '-', Flag))
      || ((e.Separate? || e.Omitted? || e.Missing?) && e.c == '-' && EndingOk(cfg, e, more))
  }

  /** The arguments: the items one after the other, and "--" with what follows it if there is one. */
  function Args(items: seq<Item>, end: Option<seq<string>>): seq<string> {
    if items == [] then (if end.Some? then ["--"] + end.value else [])
    else ItemArgs(items[0]) + Args(items[1..], end)
  }

  ghost predicate ItemsOk(cfg: Config, items: seq<Item>, end: Option<seq<string>>) {
    items == [] || (ItemOk(cfg, items[0], Args(items[1..], end) != []) && ItemsOk(cfg, items[1..], end))
  }

  /** The items with their arguments that are options, the operands, what follows "--", and what is returned. */
  function Meaning(cfg: Config, items: seq<Item>, end: Option<seq<string>>): Scan {
    if items == [] then Scan(if end.Some? then ["--"] else [], [], end.UnwrapOr([]), [])
    else
      var r, x := Meaning(cfg, items[1..], end), items[0];
      if x.Operand? then r.(nonopts := [x.arg] + r.nonopts)
      else r.(opts := ItemArgs(x) + r.opts, events := ItemEvents(cfg, x) + r.events)
  }

  // ----- Steps -----

  lemma DeclaredIsIndex(options: string, c: char, k: int)
    requires DeclaredAt(options, c, k)
    ensures IndexOf(options, c) == k
  {
  }

  lemma CodesAre(cfg: Config)
    ensures cfg.BadArg() == MissingCode(cfg) && BADCH == UNKNOWN_CODE
  {
  }

  lemma LongFound(cfg: Config, l: Long, more: bool)
    requires LongOk(cfg, l, more)
    ensures FindLong(cfg.longOptions, l.name) == l.which
  {
    var longs, r := cfg.longOptions, FindLong(cfg.longOptions, l.name);
    if l.which.Found? {
      var i := l.which.index;
      assert l.name <= longs[i].name;
      assert r.Found? && IsMatch(longs, l.name, r.index);
      hide FindLong;
      assert !(r.index < i) && !(i < r.index);
    }
  }

  lemma LongSplits(l: Long)
    requires '=' !in l.name
    ensures var text := LongText(l); var eq := IndexOf(text, '=');
            text[..eq] == l.name && l.value == if eq < |text| then Some(text[eq + 1..]) else None
  {
    var text := LongText(l);
    var eq := IndexOf(text, '=');
    assert forall i :: 0 <= i < |l.name| ==> text[i] == l.name[i] != '=';
    if l.value.Some? {
      assert text[|l.name|] == '=';
      assert eq == |l.name|;
      assert text[eq + 1..] == l.value.value;
    } else {
      assert text == l.name;
    }
    assert text[..|l.name|] == l.name;
  }

  lemma LongIsStep(cfg: Config, l: Long, rest: seq<string>)
    requires LongArgs(l) <= rest && LongOk(cfg, l, rest[|LongArgs(l)|..] != [])
    ensures var e := LongEvent(cfg, l);
            LongStep(cfg, LongText(l), rest) == Step(e.code, e.optarg, "", 1 + |LongArgs(l)|)
  {
    LongFound(cfg, l, rest[|LongArgs(l)|..] != []);
    LongSplits(l);
    CodesAre(cfg);
    assert l.next.Some? ==> rest != [] && rest[0] == l.next.value;
    assert l.next.None? ==> rest[|LongArgs(l)|..] == rest;
    hide IndexOf, LongText, FindLong, IsMatch, HasExact, HasConflict;
  }

  lemma FlagIsStep(cfg: Config, c: char, tail: string, rest: seq<string>)
    requires c != '-' && (Declares(cfg.options, c, Flag) || Declares(cfg.options, c, Undeclared))
    ensures OptionStep(cfg, [c] + tail, false, rest) ==
            Step(FlagEvent(cfg, c).code, None, tail, if tail == "" then 1 else 0)
  {
    var place := [c] + tail;
    assert place[0] == c && place[1..] == tail;
    CodesAre(cfg);
    if c != ':' && c in cfg.options {
      var k :| KindAt(cfg.options, c, k, Flag);
      DeclaredIsIndex(cfg.options, c, k);
    } else if c != ':' {
      assert IndexOf(cfg.options, c) == |cfg.options|;
    }
    hide LongStep, IndexOf;
  }

  /** A letter with an argument: as long as it is not the dash of a longer argument. */
  lemma LetterIsStep(cfg: Config, e: Ending, whole: bool, rest: seq<string>)
    requires e.Attached? || e.Separate? || e.Omitted? || e.Missing?
    requires EndingArgs(e) <= rest && EndingOk(cfg, e, rest[|EndingArgs(e)|..] != [])
    requires if whole then EndingText(e) == "-" && '-' in cfg.options else e.c != '-'
    ensures var v := EndingEvents(cfg, e)[0];
            OptionStep(cfg, EndingText(e), whole, rest) == Step(v.code, v.optarg, "", 1 + |EndingArgs(e)|)
  {
    var c := e.c;
    var tail := if e.Attached? then e.text else "";
    assert EndingText(e) == [c] + tail;
    var kind := if e.Separate? || e.Missing? || (e.Attached? && Declares(cfg.options, c, Required)) then Required
                else Optional;
    var k :| KindAt(cfg.options, c, k, kind);
    LetterWithArgument(cfg, e, k, tail, rest);
    DeclaredLetterStep(cfg, c, k, tail, whole, rest);
    hide LetterStep, OptionStep, EndingOk;
  }

  lemma DeclaredLetterStep(cfg: Config, c: char, k: int, tail: string, whole: bool, rest: seq<string>)
    requires DeclaredAt(cfg.options, c, k) && c != ':' && !(c == 'W' && At(cfg.options, k + 1, ';'))
    requires if whole then c == '-' && tail == "" else c != '-'
    ensures whole ==> [c] + tail == "-" && '-' in cfg.options
    ensures OptionStep(cfg, [c] + tail, whole, rest) == LetterStep(cfg, k, tail, rest)
  {
    DeclaredIsIndex(cfg.options, c, k);
    var place := [c] + tail;
    assert place[0] == c && place[1..] == tail;
    hide LongStep, IndexOf, LetterStep;
  }

  lemma LetterWithArgument(cfg: Config, e: Ending, k: int, tail: string, rest: seq<string>)
    requires (e.Attached? || e.Separate? || e.Omitted? || e.Missing?) && tail == (if e.Attached? then e.text else "")
    requires EndingArgs(e) <= rest && EndingOk(cfg, e, rest[|EndingArgs(e)|..] != [])
    requires DeclaredAt(cfg.options, e.c, k) && At(cfg.options, k + 1, ':')
    requires (e.Separate? || e.Missing? ==> !At(cfg.options, k + 2, ':')) &&
             (e.Omitted? ==> At(cfg.options, k + 2, ':'))
    ensures var v := EndingEvents(cfg, e)[0];
            LetterStep(cfg, k, tail, rest) == Step(v.code, v.optarg, "", 1 + |EndingArgs(e)|)
  {
    CodesAre(cfg);
    assert e.Separate? ==> rest != [] && rest[0] == e.arg;
    assert !e.Separate? ==> rest[|EndingArgs(e)|..] == rest;
  }

  lemma DashIsStep(cfg: Config, rest: seq<string>)
    requires Declares(cfg.options, '-', Flag)
    ensures '-' in cfg.options && OptionStep(cfg, "-", true, rest) == Step('-' as int, None, "", 1)
  {
    var k :| KindAt(cfg.options, '-', k, Flag);
    DeclaredIsIndex(cfg.options, '-', k);
    hide LongStep, IndexOf;
  }

  lemma LongEndingIsStep(cfg: Config, e: Ending, rest: seq<string>)
    requires e.LongTail? || e.LongAttached? || e.LongSeparate? || e.LongMissing?
    requires EndingArgs(e) <= rest && EndingOk(cfg, e, rest[|EndingArgs(e)|..] != [])
    ensures var v := EndingEvents(cfg, e)[0];
            OptionStep(cfg, EndingText(e), false, rest) == Step(v.code, v.optarg, "", 1 + |EndingArgs(e)|)
  {
    hide OptionStep, LongStep, LongText, LongOk;
    if e.LongTail? {
      DashStartsLong(cfg, LongText(e.l), rest);
      LongIsStep(cfg, e.l, rest);
    } else {
      assert ['W'] + "" == "W";
      LongLetterStep(cfg, if e.LongAttached? then LongText(e.l) else "", rest);
      if e.LongAttached? {
        LongIsStep(cfg, e.l, rest);
      } else if e.LongSeparate? {
        assert rest[0] == LongText(e.l) && LongArgs(e.l) <= rest[1..];
        assert rest[1..][|LongArgs(e.l)|..] == rest[|EndingArgs(e)|..];
        LongIsStep(cfg, e.l, rest[1..]);
      } else {
        assert rest[0..] == rest;
      }
    }
  }

  lemma DashStartsLong(cfg: Config, text: string, rest: seq<string>)
    ensures OptionStep(cfg, "-" + text, false, rest) == LongStep(cfg, text, rest)
  {
    assert ("-" + text)[1..] == text;
    hide LongStep;
  }

  /** -W with a long option behind it, in the same argument or in the next. */
  lemma LongLetterStep(cfg: Config, tail: string, rest: seq<string>)
    requires Declares(cfg.options, 'W', LongLetter)
    ensures OptionStep(cfg, ['W'] + tail, false, rest) ==
            if tail != "" then LongStep(cfg, tail, rest)
            else if rest == [] then Step(MissingCode(cfg), None, "", 1)
            else var s := LongStep(cfg, rest[0], rest[1..]); s.(used := s.used + 1)
  {
    var k :| KindAt(cfg.options, 'W', k, LongLetter);
    DeclaredIsIndex(cfg.options, 'W', k);
    CodesAre(cfg);
    var place := ['W'] + tail;
    assert place[0] == 'W' && place[1..] == tail;
    hide LongStep, IndexOf;
  }

  lemma EndingIsStep(cfg: Config, e: Ending, rest: seq<string>)
    requires !e.Nothing? && NoDash(e)
    requires EndingArgs(e) <= rest && EndingOk(cfg, e, rest[|EndingArgs(e)|..] != [])
    ensures |EndingEvents(cfg, e)| == 1 && EndingText(e) != ""
    ensures var v := EndingEvents(cfg, e)[0];
            OptionStep(cfg, EndingText(e), false, rest) == Step(v.code, v.optarg, "", 1 + |EndingArgs(e)|)
  {
    hide OptionStep, EndingOk;
    if e.LongTail? || e.LongAttached? || e.LongSeparate? || e.LongMissing? {
      LongEndingIsStep(cfg, e, rest);
    } else {
      LetterIsStep(cfg, e, false, rest);
    }
  }

  // ----- Command lines are scanned -----

  lemma FlagIsScanned(cfg: Config, c: char, tail: string, args: seq<string>)
    requires c != '-' && (Declares(cfg.options, c, Flag) || Declares(cfg.options, c, Undeclared)) && args != []
    ensures var r := if tail == "" then ScanArgs(cfg, args[1..]) else ScanOption(cfg, tail, false, args);
            ScanOption(cfg, [c] + tail, false, args) ==
            Scan(if tail == "" then args[..1] + r.opts else r.opts, r.nonopts, r.tail, [FlagEvent(cfg, c)] + r.events)
  {
    ScanOptionStep(cfg, [c] + tail, false, args);
    FlagIsStep(cfg, c, tail, args[1..]);
    hide ScanOption, ScanArgs, OptionStep, Declares;
    if tail != "" {
      assert args[..0] + ScanOption(cfg, tail, false, args).opts == ScanOption(cfg, tail, false, args).opts;
    }
  }

  lemma EndingIsScanned(cfg: Config, e: Ending, args: seq<string>)
    requires NoDash(e) && !e.Nothing?
    requires args != [] && EndingArgs(e) <= args[1..] && EndingOk(cfg, e, args[1..][|EndingArgs(e)|..] != [])
    ensures EndingText(e) != ""
    ensures var n := 1 + |EndingArgs(e)|;
            var r := ScanArgs(cfg, args[n..]);
            ScanOption(cfg, EndingText(e), false, args) ==
            Scan(args[..n] + r.opts, r.nonopts, r.tail, EndingEvents(cfg, e) + r.events)
  {
    EndingIsStep(cfg, e, args[1..]);
    ScanOptionStep(cfg, EndingText(e), false, args);
    hide ScanOption, ScanArgs, OptionStep, EndingOk, EndingText, EndingEvents, EndingArgs;
    assert EndingEvents(cfg, e) == [EndingEvents(cfg, e)[0]];
  }

  /** What the letters of an argument and its ending return; r is what follows. */
  lemma {:induction false} LettersAreScanned(cfg: Config, flags: string, e: Ending, args: seq<string>)
    requires FlagsOk(cfg, flags) && NoDash(e) && flags + EndingText(e) != ""
    requires args != [] && EndingArgs(e) <= args[1..] && EndingOk(cfg, e, args[1..][|EndingArgs(e)|..] != [])
    ensures var n := 1 + |EndingArgs(e)|;
            var r := ScanArgs(cfg, args[n..]);
            ScanOption(cfg, flags + EndingText(e), false, args) ==
            Scan(args[..n] + r.opts, r.nonopts, r.tail, FlagEvents(cfg, flags) + EndingEvents(cfg, e) + r.events)
    decreases |flags|
  {
    hide ScanOption, ScanArgs, EndingOk, EndingText, EndingEvents, EndingArgs, Declares, FlagEvent;
    NothingHasNoText(e);
    if flags == "" {
      assert flags + EndingText(e) == EndingText(e);
      EndingIsScanned(cfg, e, args);
      assert [] + EndingEvents(cfg, e) == EndingEvents(cfg, e);
    } else {
      var c, tail := flags[0], flags[1..] + EndingText(e);
      assert flags + EndingText(e) == [c] + tail;
      FlagIsScanned(cfg, c, tail, args);
      var r := ScanArgs(cfg, args[1 + |EndingArgs(e)|..]);
      FirstEvent(FlagEvent(cfg, c), FlagEvents(cfg, flags[1..]), EndingEvents(cfg, e), r.events);
      if tail == "" {
        assert flags[1..] == "" && FlagEvents(cfg, "") == [] && [] + [] + r.events == r.events;
      } else {
        FlagsTail(cfg, flags);
        LettersAreScanned(cfg, flags[1..], e, args);
      }
    }
  }

  lemma FlagsTail(cfg: Config, flags: string)
    requires FlagsOk(cfg, flags) && flags != ""
    ensures FlagsOk(cfg, flags[1..])
  {
    hide Declares;
    assert forall i :: 0 <= i < |flags[1..]| ==> flags[1..][i] == flags[i + 1];
  }

  lemma NothingHasNoText(e: Ending)
    ensures EndingText(e) == "" <==> e.Nothing?
    ensures e.Nothing? ==> EndingArgs(e) == [] && forall cfg :: EndingEvents(cfg, e) == []
  {
  }

  lemma FirstEvent(x: Event, flags: seq<Event>, a: seq<Event>, b: seq<Event>)
    ensures [x] + flags + a + b == [x] + (flags + a + b)
  {
  }

  lemma DashIsScanned(cfg: Config, x: Item, args: seq<string>)
    requires x.Dash? && ItemArgs(x) <= args && ItemOk(cfg, x, args[|ItemArgs(x)|..] != [])
    ensures var n := |ItemArgs(x)|;
            var r := ScanArgs(cfg, args[n..]);
            ScanArgs(cfg, args) == Scan(args[..n] + r.opts, r.nonopts, r.tail, ItemEvents(cfg, x) + r.events)
  {
    var e := x.ending;
    assert args[0] == "-" && EndingArgs(e) <= args[1..] && args[1..][|EndingArgs(e)|..] == args[|ItemArgs(x)|..];
    DashIsDeclared(cfg, x, args[|ItemArgs(x)|..] != []);
    assert ScanArgs(cfg, args) == ScanOption(cfg, "-", true, args);
    ScanOptionStep(cfg, "-", true, args);
    if e.Nothing? {
      DashIsStep(cfg, args[1..]);
    } else {
      LetterIsStep(cfg, e, true, args[1..]);
    }
    hide ScanOption, ScanArgs, OptionStep, EndingOk, Declares;
  }

  lemma DashIsDeclared(cfg: Config, x: Item, more: bool)
    requires x.Dash? && ItemOk(cfg, x, more)
    ensures '-' in cfg.options
  {
  }

  /** An argument with letters is scanned from its first letter. */
  lemma LettersArgument(cfg: Config, place: string, args: seq<string>)
    requires args != [] && args[0] == "-" + place && place != "" && place != "-"
    ensures ScanArgs(cfg, args) == ScanOption(cfg, place, false, args)
  {
    assert args[0][1..] == place && |args[0]| > 1 && args[0][0] == '-';
    hide ScanOption;
  }

  lemma LettersItem(cfg: Config, x: Item, args: seq<string>)
    requires x.Letters? && ItemArgs(x) <= args && ItemOk(cfg, x, args[|ItemArgs(x)|..] != [])
    ensures var n := |ItemArgs(x)|;
            var r := ScanArgs(cfg, args[n..]);
            ScanArgs(cfg, args) == Scan(args[..n] + r.opts, r.nonopts, r.tail, ItemEvents(cfg, x) + r.events)
  {
    var e, place := x.ending, x.flags + EndingText(x.ending);
    hide ScanArgs, ScanOption, EndingText, EndingArgs, EndingOk, FlagsOk, EndingEvents, FlagEvents;
    assert ItemArgs(x)[0] == "-" + place by { assert "-" + x.flags + EndingText(e) == "-" + place; }
    assert args[0] == ItemArgs(x)[0] && EndingArgs(e) == ItemArgs(x)[1..] && EndingArgs(e) <= args[1..];
    assert args[1..][|EndingArgs(e)|..] == args[|ItemArgs(x)|..];
    LettersArgument(cfg, place, args);
    LettersAreScanned(cfg, x.flags, e, args);
  }

  lemma ItemIsScanned(cfg: Config, x: Item, args: seq<string>)
    requires ItemArgs(x) <= args && ItemOk(cfg, x, args[|ItemArgs(x)|..] != [])
    ensures var n := |ItemArgs(x)|;
            var r := ScanArgs(cfg, args[n..]);
            ScanArgs(cfg, args) ==
            if x.Operand? then r.(nonopts := [x.arg] + r.nonopts)
            else Scan(args[..n] + r.opts, r.nonopts, r.tail, ItemEvents(cfg, x) + r.events)
  {
    match x {
      case Operand(arg) => assert args[0] == arg;
      case Letters(_, _) => LettersItem(cfg, x, args);
      case Dash(_) => DashIsScanned(cfg, x, args);
    }
  }

  /** getopt_long returns what a command line means. */
  lemma {:induction false} CommandLineIsScanned(cfg: Config, items: seq<Item>, end: Option<seq<string>>)
    requires ItemsOk(cfg, items, end)
    ensures ScanArgs(cfg, Args(items, end)) == Meaning(cfg, items, end)
    decreases |items|
  {
    var args := Args(items, end);
    if items == [] {
      assert end.Some? ==> args[0] == "--" && args[1..] == end.value;
    } else {
      var x, more := items[0], Args(items[1..], end);
      assert args == ItemArgs(x) + more && args[|ItemArgs(x)|..] == more && args[..|ItemArgs(x)|] == ItemArgs(x);
      CommandLineIsScanned(cfg, items[1..], end);
      ItemIsScanned(cfg, x, args);
      hide ScanArgs, ItemArgs, ItemOk, ItemEvents;
    }
  }

  // ----- Every argument vector is a command line -----

  lemma LongOf(cfg: Config, text: string, rest: seq<string>) returns (l: Long)
    ensures LongText(l) == text && LongArgs(l) <= rest && LongOk(cfg, l, rest[|LongArgs(l)|..] != [])
  {
    var eq := IndexOf(text, '=');
    var name, value := text[..eq], if eq < |text| then Some(text[eq + 1..]) else None;
    var which := FindLong(cfg.longOptions, name);
    var wants := which.Found? && cfg.longOptions[which.index].hasArg == RequiredArgument && value.None?;
    l := Long(name, value, if wants && rest != [] then Some(rest[0]) else None, which);
    assert eq < |text| ==> text == name + (['='] + text[eq + 1..]);
    assert LongArgs(l) == [] ==> rest[|LongArgs(l)|..] == rest;
    hide FindLong, IndexOf;
  }

  lemma KindOf(options: string, c: char) returns (kind: Kind)
    ensures Declares(options, c, kind)
  {
    if c == ':' || c !in options {
      kind := Undeclared;
    } else {
      var k := IndexOf(options, c);
      kind := if c == 'W' && At(options, k + 1, ';') then LongLetter
              else if !At(options, k + 1, ':') then Flag
              else if At(options, k + 2, ':') then Optional
              else Required;
      assert KindAt(options, c, k, kind);
    }
  }

  /** Letters that read like this: flags, and then an ending. */
  ghost predicate Reads(cfg: Config, place: string, rest: seq<string>, flags: string, e: Ending) {
    && place == flags + EndingText(e) && FlagsOk(cfg, flags) && NoDash(e)
    && EndingArgs(e) <= rest && EndingOk(cfg, e, rest[|EndingArgs(e)|..] != [])
  }

  /** The ending that a letter other than a flag makes of what follows it. */
  lemma EndingOf(cfg: Config, c: char, kind: Kind, tail: string, rest: seq<string>) returns (e: Ending)
    requires c == '-' || (Declares(cfg.options, c, kind) && !kind.Flag? && !kind.Undeclared?)
    ensures Reads(cfg, [c] + tail, rest, "", e)
  {
    if c == '-' {
      var l := LongOf(cfg, tail, rest);
      e := LongTail(l);
    } else if kind == LongLetter {
      if tail != "" {
        var l := LongOf(cfg, tail, rest);
        e := LongAttached(l);
      } else if rest == [] {
        e := LongMissing;
      } else {
        var l := LongOf(cfg, rest[0], rest[1..]);
        e := LongSeparate(l);
        assert rest == [rest[0]] + rest[1..];
        assert rest[|EndingArgs(e)|..] == rest[1..][|LongArgs(l)|..];
      }
      hide LongOk, LongText;
    } else if tail != "" {
      e := Attached(c, tail);
    } else if kind == Optional {
      e := Omitted(c);
    } else if rest == [] {
      e := Missing(c);
    } else {
      e := Separate(c, rest[0]);
    }
    hide Declares, LongOk, LongText;
    assert "" + EndingText(e) == [c] + tail;
  }

  lemma {:induction false} LettersOf(cfg: Config, place: string, rest: seq<string>) returns (flags: string, e: Ending)
    ensures Reads(cfg, place, rest, flags, e)
    decreases |place|
  {
    hide Reads, Declares;
    if place == "" {
      flags, e := "", Nothing;
      ReadsNothing(cfg, rest);
    } else {
      var c, tail := place[0], place[1..];
      assert place == [c] + tail;
      var kind := KindOf(cfg.options, c);
      if c != '-' && (kind.Flag? || kind.Undeclared?) {
        var more;
        more, e := LettersOf(cfg, tail, rest);
        flags := [c] + more;
        ReadsMore(cfg, c, tail, rest, more, e);
      } else {
        flags := "";
        e := EndingOf(cfg, c, kind, tail, rest);
      }
    }
  }

  lemma ReadsNothing(cfg: Config, rest: seq<string>)
    ensures Reads(cfg, "", rest, "", Nothing)
  {
  }

  lemma ReadsMore(cfg: Config, c: char, tail: string, rest: seq<string>, flags: string, e: Ending)
    requires Reads(cfg, tail, rest, flags, e)
    requires c != '-' && (Declares(cfg.options, c, Flag) || Declares(cfg.options, c, Undeclared))
    ensures Reads(cfg, [c] + tail, rest, [c] + flags, e)
  {
    MoreFlags(cfg, c, flags);
    Prepend(c, flags, EndingText(e));
    hide EndingOk, EndingText, EndingArgs, FlagsOk, Declares, NoDash;
  }

  lemma Prepend(c: char, a: string, b: string)
    ensures [c] + (a + b) == [c] + a + b
  {
  }

  lemma MoreFlags(cfg: Config, c: char, flags: string)
    requires FlagsOk(cfg, flags) && c != '-' && (Declares(cfg.options, c, Flag) || Declares(cfg.options, c, Undeclared))
    ensures FlagsOk(cfg, [c] + flags)
  {
    hide Declares;
  }

  lemma DashOf(cfg: Config, rest: seq<string>) returns (x: Item)
    requires '-' in cfg.options
    ensures x.Dash? && ItemArgs(x) <= ["-"] + rest && ItemOk(cfg, x, (["-"] + rest)[|ItemArgs(x)|..] != [])
  {
    var kind := KindOf(cfg.options, '-');
    var e := if kind == Flag then Nothing
             else if kind == Optional then Omitted('-')
             else if rest == [] then Missing('-')
             else Separate('-', rest[0]);
    x := Dash(e);
  }

  lemma ItemOf(cfg: Config, args: seq<string>) returns (x: Item)
    requires args != [] && args[0] != "--"
    ensures ItemArgs(x) != [] && ItemArgs(x) <= args && ItemOk(cfg, x, args[|ItemArgs(x)|..] != [])
  {
    var arg, rest := args[0], args[1..];
    assert args == [arg] + rest;
    if arg == "" || arg[0] != '-' || (arg == "-" && '-' !in cfg.options) {
      x := Operand(arg);
    } else if arg == "-" {
      x := DashOf(cfg, rest);
    } else {
      var place := arg[1..];
      assert arg == "-" + place;
      var flags, e := LettersOf(cfg, place, rest);
      x := Letters(flags, e);
      LettersOk(cfg, x, arg, rest);
    }
  }

  lemma LettersOk(cfg: Config, x: Item, arg: string, rest: seq<string>)
    requires x.Letters? && |arg| > 1 && arg[0] == '-' && arg != "--" && Reads(cfg, arg[1..], rest, x.flags, x.ending)
    ensures ItemArgs(x) <= [arg] + rest && ItemOk(cfg, x, ([arg] + rest)[|ItemArgs(x)|..] != [])
  {
    var e := x.ending;
    hide EndingText, EndingArgs, EndingOk, FlagsOk;
    assert "-" + x.flags + EndingText(e) == "-" + (x.flags + EndingText(e)) == arg;
    assert ([arg] + rest)[|ItemArgs(x)|..] == rest[|EndingArgs(e)|..];
    assert arg[1..] == "-" ==> arg == "--";
  }

  /** Whatever the arguments are, they are those of a command line. */
  lemma {:induction false} EveryVectorIsACommandLine(cfg: Config, args: seq<string>)
    returns (items: seq<Item>, end: Option<seq<string>>)
    ensures ItemsOk(cfg, items, end) && Args(items, end) == args
    decreases |args|
  {
    hide ItemOk, ItemArgs;
    if args == [] {
      items, end := [], None;
    } else if args[0] == "--" {
      items, end := [], Some(args[1..]);
      assert args == ["--"] + args[1..];
    } else {
      var x := ItemOf(cfg, args);
      var rest := args[|ItemArgs(x)|..];
      var more;
      more, end := EveryVectorIsACommandLine(cfg, rest);
      items := [x] + more;
      assert items[1..] == more && args == ItemArgs(x) + rest;
    }
  }
}
