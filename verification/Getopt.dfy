/** getopt_long of lib/util/getopt_long.c: a scanner that keeps its position between calls and
    moves the non-options it skips behind the options it returns, in place.

    An argument is its text without the terminating NUL, and `nargv` has `nargc` elements. */
module Getopt {
  import opened Wrappers
  import PermuteArgs

  datatype HasArg = NoArgument | RequiredArgument | OptionalArgument

  /** flag 0 stands for the null pointer, any other number for an int of the caller's. */
  datatype LongOption = LongOption(name: string, hasArg: HasArg, flag: nat, val: int)

  datatype Config = Config(options: string, longOptions: seq<LongOption>)
  {
    /** The leading '+' and '-' that switch the permutation off are not used, and no long option
        returns the value that means "no more options". */
    predicate Valid() {
      && (options != "" ==> options[0] != '+' && options[0] != '-')
      && (forall i :: 0 <= i < |longOptions| ==> longOptions[i].val != -1)
    }

    function BadArg(): int {
      if options != "" && options[0] == ':' then ':' as int else '?' as int
    }
  }

  const BADCH := '?' as int

  /** What one call hands to the caller. */
  datatype Event = Event(code: int, optarg: Option<string>)

  // ----- Text -----

  /** strchr: the first position of c, or the length if there is none. */
  function IndexOf(s: string, c: char): (k: nat)
    ensures k <= |s| && (k < |s| ==> s[k] == c) && forall i :: 0 <= i < k ==> s[i] != c
  {
    if s == "" then 0 else if s[0] == c then 0 else 1 + IndexOf(s[1..], c)
  }

  function CharAt(s: string, i: nat): char {
    if i < |s| then s[i] else '\0'
  }

  // ----- Long options -----

  datatype LongMatch = Unknown | Ambiguous | Found(index: nat)

  function FirstExact(longs: seq<LongOption>, name: string): (k: nat)
    ensures k <= |longs| && (k < |longs| ==> longs[k].name == name)
    ensures forall i :: 0 <= i < k ==> longs[i].name != name
  {
    if longs == [] then 0 else if longs[0].name == name then 0 else 1 + FirstExact(longs[1..], name)
  }

  function FirstPartial(longs: seq<LongOption>, name: string): (k: nat)
    ensures k <= |longs| && (k < |longs| ==> name <= longs[k].name)
    ensures forall i :: 0 <= i < k ==> !(name <= longs[i].name)
  {
    if longs == [] then 0 else if name <= longs[0].name then 0 else 1 + FirstPartial(longs[1..], name)
  }

  predicate SameEffect(a: LongOption, b: LongOption) {
    a.hasArg == b.hasArg && a.flag == b.flag && a.val == b.val
  }

  predicate HasExact(longs: seq<LongOption>, name: string) {
    exists k :: 0 <= k < |longs| && longs[k].name == name
  }

  /** The name abbreviates two options that do different things. */
  predicate HasConflict(longs: seq<LongOption>, name: string) {
    exists j, k :: 0 <= j < |longs| && 0 <= k < |longs| && Conflict(longs[j], longs[k], name)
  }

  predicate Conflict(a: LongOption, b: LongOption, name: string) {
    name <= a.name && name <= b.name && !SameEffect(a, b)
  }

  /** Option i is the first with just this name, or there is none and it is the first that the name
      abbreviates, all of which do the same. */
  predicate IsMatch(longs: seq<LongOption>, name: string, i: nat)
    requires i < |longs|
  {
    if HasExact(longs, name) then longs[i].name == name && forall k :: 0 <= k < i ==> longs[k].name != name
    else
      && name <= longs[i].name && (forall k :: 0 <= k < i ==> !(name <= longs[k].name))
      && forall k :: 0 <= k < |longs| && name <= longs[k].name ==> SameEffect(longs[k], longs[i])
  }

  /** An exact name wins; otherwise every option the name abbreviates must have the same effect. */
  function FindLong(longs: seq<LongOption>, name: string): (r: LongMatch)
    ensures r.Found? ==> r.index < |longs| && IsMatch(longs, name, r.index)
    ensures r.Unknown? <==> forall k :: 0 <= k < |longs| ==> !(name <= longs[k].name)
    ensures r.Ambiguous? <==> !HasExact(longs, name) && HasConflict(longs, name)
  {
    var e := FirstExact(longs, name);
    if e < |longs| then Found(e)
    else
      var p := FirstPartial(longs, name);
      if p == |longs| then Unknown
      else if exists j :: p < j < |longs| && Conflict(longs[j], longs[p], name) then Ambiguous
      else Found(p)
  }

  /** The search loop of parse_long_options. */
  method SearchLong(longs: seq<LongOption>, name: string) returns (r: LongMatch)
    ensures r == FindLong(longs, name)
  {
    var match_ := -1;
    var secondPartialMatch := false;
    for i := 0 to |longs|
      invariant -1 <= match_ < i
      invariant forall k :: 0 <= k < i ==> longs[k].name != name
      invariant match_ == -1 ==> forall k :: 0 <= k < i ==> !(name <= longs[k].name)
      invariant match_ != -1 ==> match_ == FirstPartial(longs, name)
      invariant match_ == -1 ==> !secondPartialMatch
      invariant match_ != -1 ==>
                  (secondPartialMatch <==>
                   exists j :: match_ < j < i && Conflict(longs[j], longs[match_], name))
    {
      if name <= longs[i].name {
        if |longs[i].name| == |name| {
          assert FirstExact(longs, name) == i;
          return Found(i);
        }
        if match_ == -1 {
          match_ := i;
        } else if !SameEffect(longs[i], longs[match_]) {
          secondPartialMatch := true;
        }
      }
    }
    assert FirstExact(longs, name) == |longs|;
    if secondPartialMatch {
      r := Ambiguous;
    } else if match_ != -1 {
      r := Found(match_);
    } else {
      r := Unknown;
    }
  }

  // ----- What one option means, given the arguments behind it -----

  /** How a call ends: what it returns, what is left of the argument it looked at, and over how
      many arguments optind moves (none while letters are left). */
  datatype Step = Step(code: int, optarg: Option<string>, place: string, used: nat)

  function Effect(o: LongOption): int {
    if o.flag != 0 then 0 else o.val
  }

  /** --name, --name=value or --name value; `text` starts behind the dashes. */
  function LongStep(cfg: Config, text: string, rest: seq<string>): (s: Step)
    ensures s.place == "" && 1 <= s.used <= 1 + |rest|
    ensures cfg.Valid() ==> s.code != -1
  {
    var eq := IndexOf(text, '=');
    var value := if eq < |text| then Some(text[eq + 1..]) else None;
    match FindLong(cfg.longOptions, text[..eq])
    case Unknown => Step(BADCH, None, "", 1)
    case Ambiguous => Step(BADCH, None, "", 1)
    case Found(i) =>
      var o := cfg.longOptions[i];
      match o.hasArg
      case NoArgument => if value.Some? then Step(cfg.BadArg(), None, "", 1) else Step(Effect(o), None, "", 1)
      case OptionalArgument => Step(Effect(o), value, "", 1)
      case RequiredArgument =>
        if value.Some? then Step(Effect(o), value, "", 1)
        else if rest == [] then Step(cfg.BadArg(), None, "", 1)
        else Step(Effect(o), Some(rest[0]), "", 2)
  }

  /** The option at `place`; `whole` says that `place` is an argument of its own, namely "-". */
  function OptionStep(cfg: Config, place: string, whole: bool, rest: seq<string>): (s: Step)
    requires place != "" && (whole ==> place == "-" && '-' in cfg.options)
    ensures s.used <= 1 + |rest|
    ensures if s.used == 0 then s.place != "" && |s.place| < |place| else s.place == ""
    ensures cfg.Valid() ==> s.code != -1
  {
    if place[0] == '-' && !whole then LongStep(cfg, place[1..], rest)
    else
      var c, tail := place[0], place[1..];
      var oli := IndexOf(cfg.options, c);
      var letter := if tail == "" then 1 else 0;
      if c == ':' || (c == '-' && tail != "") || oli == |cfg.options| then Step(BADCH, None, tail, letter)
      else if c == 'W' && CharAt(cfg.options, oli + 1) == ';' then
        if tail != "" then LongStep(cfg, tail, rest)
        else if rest == [] then Step(cfg.BadArg(), None, "", 1)
        else var s := LongStep(cfg, rest[0], rest[1..]); s.(used := s.used + 1)
      else LetterStep(cfg, oli, tail, rest)
  }

  /** The letter at oli of the option string, `tail` being what follows it in its argument. */
  function LetterStep(cfg: Config, oli: nat, tail: string, rest: seq<string>): (s: Step)
    requires oli < |cfg.options|
    ensures s.used <= 1 + |rest|
    ensures if s.used == 0 then s.place != "" && |s.place| <= |tail| else s.place == ""
    ensures s.code != -1
  {
    var c := cfg.options[oli] as int;
    if CharAt(cfg.options, oli + 1) != ':' then Step(c, None, tail, if tail == "" then 1 else 0)
    else if tail != "" then Step(c, Some(tail), "", 1)
    else if CharAt(cfg.options, oli + 2) == ':' then Step(c, None, "", 1)
    else if rest == [] then Step(cfg.BadArg(), None, "", 1)
    else Step(c, Some(rest[0]), "", 2)
  }

  // ----- What the whole argument vector means -----

  predicate IsNonOption(cfg: Config, arg: string) {
    arg == "" || arg[0] != '-' || (|arg| == 1 && '-' !in cfg.options)
  }

  /** The arguments behind the program name, sorted into options (with their arguments and any
      "--"), non-options and what follows "--", each in order, and what the calls return. */
  datatype Scan = Scan(opts: seq<string>, nonopts: seq<string>, tail: seq<string>, events: seq<Event>)

  function ScanArgs(cfg: Config, args: seq<string>): (r: Scan)
    ensures |r.opts| + |r.nonopts| + |r.tail| == |args|
    decreases |args|, 1, 0
  {
    if args == [] then Scan([], [], [], [])
    else if IsNonOption(cfg, args[0]) then
      var r := ScanArgs(cfg, args[1..]);
      r.(nonopts := [args[0]] + r.nonopts)
    else if args[0] == "--" then Scan(["--"], [], args[1..], [])
    else if |args[0]| == 1 then ScanOption(cfg, args[0], true, args)
    else ScanOption(cfg, args[0][1..], false, args)
  }

  /** The same, with the scanner inside the first argument, at `place`. */
  function ScanOption(cfg: Config, place: string, whole: bool, args: seq<string>): (r: Scan)
    requires args != [] && place != "" && (whole ==> place == "-" && '-' in cfg.options)
    ensures |r.opts| + |r.nonopts| + |r.tail| == |args|
    decreases |args|, 0, |place|
  {
    var s := OptionStep(cfg, place, whole, args[1..]);
    var r := if s.used == 0 then ScanOption(cfg, s.place, false, args) else ScanArgs(cfg, args[s.used..]);
    Scan(if s.used == 0 then r.opts else args[..s.used] + r.opts, r.nonopts, r.tail,
         [Event(s.code, s.optarg)] + r.events)
  }

  /** ScanOption, one call further. */
  lemma ScanOptionStep(cfg: Config, place: string, whole: bool, args: seq<string>)
    requires args != [] && place != "" && (whole ==> place == "-" && '-' in cfg.options)
    ensures var s := OptionStep(cfg, place, whole, args[1..]);
            var r := if s.used == 0 then ScanOption(cfg, s.place, false, args) else ScanArgs(cfg, args[s.used..]);
            ScanOption(cfg, place, whole, args) ==
            Scan(args[..s.used] + r.opts, r.nonopts, r.tail, [Event(s.code, s.optarg)] + r.events)
  {
    hide OptionStep, ScanArgs;
    var s := OptionStep(cfg, place, whole, args[1..]);
    if s.used == 0 {
      var r := ScanOption(cfg, s.place, false, args);
      assert args[..0] + r.opts == r.opts;
    }
  }

  // ----- The scanner -----

  function Drop<T>(s: seq<T>, k: nat): seq<T> {
    if k <= |s| then s[k..] else []
  }

  function Take<T>(s: seq<T>, k: nat): seq<T> {
    if k <= |s| then s[..k] else s
  }

  /** The arguments in the array while the scanner runs: what has been skipped (nonopts) stands
      between two parts of what has been taken (opts), and what is ahead has not been touched. */
  ghost predicate Layout(argv: seq<string>, orig: seq<string>, opts: seq<string>, nonopts: seq<string>,
                         optind: nat, nonoptStart: int, nonoptEnd: int)
  {
    && 1 <= optind && (optind <= |orig| || optind == 1)
    && optind == 1 + |opts| + |nonopts|
    && (nonoptStart == -1 <==> nonopts == [])
    && (nonoptStart == -1 ==> nonoptEnd == -1 && argv == Take(orig, 1) + opts + Drop(orig, optind))
    && (nonoptStart != -1 ==>
          1 <= nonoptStart <= 1 + |opts| &&
          argv == Take(orig, 1) + opts[..nonoptStart - 1] + nonopts + opts[nonoptStart - 1..] + Drop(orig, optind))
    && (nonoptStart != -1 && nonoptEnd == -1 ==> nonoptStart == 1 + |opts|)
    && (nonoptEnd != -1 ==> nonoptStart != -1 && nonoptEnd == nonoptStart + |nonopts|)
  }

  /** permute_args brings the taken options together in front of the skipped non-options. */
  lemma LayoutPermuted(argv: seq<string>, orig: seq<string>, opts: seq<string>, nonopts: seq<string>,
                       optind: nat, nonoptStart: int, nonoptEnd: int)
    requires Layout(argv, orig, opts, nonopts, optind, nonoptStart, nonoptEnd) && |argv| == |orig|
    requires nonoptEnd != -1 && nonoptEnd <= optind
    ensures optind <= |argv|
    ensures PermuteArgs.Exchanged(argv, nonoptStart, nonoptEnd, optind) ==
            Take(orig, 1) + opts + nonopts + Drop(orig, optind)
  {
    var a, b := opts[..nonoptStart - 1], opts[nonoptStart - 1..];
    var front, back := Take(orig, 1), Drop(orig, optind);
    assert |front| == 1;
    ExchangeBlocks(front + a, nonopts, b, back);
    assert (front + a) + b == front + opts;
  }

  lemma ExchangeBlocks<T>(p: seq<T>, a: seq<T>, b: seq<T>, q: seq<T>)
    ensures PermuteArgs.Exchanged(p + a + b + q, |p|, |p| + |a|, |p| + |a| + |b|) == p + b + a + q
  {
    var s := p + a + b + q;
    assert s[..|p|] == p && s[|p|..|p| + |a|] == a;
    assert s[|p| + |a|..|p| + |a| + |b|] == b && s[|p| + |a| + |b|..] == q;
  }

  /** The options are together in front of the non-options, which end at optind. */
  ghost predicate Gathered(argv: seq<string>, orig: seq<string>, opts: seq<string>, nonopts: seq<string>, optind: nat) {
    1 <= optind && optind == 1 + |opts| + |nonopts| && argv == Take(orig, 1) + opts + nonopts + Drop(orig, optind)
  }

  lemma LayoutGathered(argv: seq<string>, orig: seq<string>, opts: seq<string>, nonopts: seq<string>,
                       optind: nat, nonoptStart: int)
    requires optind <= |orig| || optind == 1
    ensures Layout(argv, orig, opts, nonopts, optind, nonoptStart, -1) <==>
            Gathered(argv, orig, opts, nonopts, optind) && nonoptStart == if nonopts == [] then -1 else 1 + |opts|
  {
    assert opts[..|opts|] == opts && opts[|opts|..] == [];
    assert Take(orig, 1) + opts + [] + Drop(orig, optind) == Take(orig, 1) + opts + Drop(orig, optind);
    assert Take(orig, 1) + opts + nonopts + [] + Drop(orig, optind) ==
           Take(orig, 1) + opts + nonopts + Drop(orig, optind);
  }

  lemma GatheredSkip(argv: seq<string>, orig: seq<string>, opts: seq<string>, nonopts: seq<string>, optind: nat)
    requires Gathered(argv, orig, opts, nonopts, optind) && optind < |orig|
    ensures Gathered(argv, orig, opts, nonopts + [orig[optind]], optind + 1)
  {
    assert Drop(orig, optind) == [orig[optind]] + Drop(orig, optind + 1);
    hide Drop, Take;
    Associate(Take(orig, 1) + opts, nonopts, [orig[optind]], Drop(orig, optind + 1));
  }

  lemma Associate<T>(a: seq<T>, b: seq<T>, c: seq<T>, d: seq<T>)
    ensures a + b + (c + d) == a + (b + c) + d
  {
  }

  lemma ScanSkip(cfg: Config, orig: seq<string>, optind: nat)
    requires optind < |orig| && IsNonOption(cfg, orig[optind])
    ensures var r := ScanArgs(cfg, Drop(orig, optind + 1));
            ScanArgs(cfg, Drop(orig, optind)) == r.(nonopts := [orig[optind]] + r.nonopts)
  {
    hide IsNonOption, ScanOption;
    assert Drop(orig, optind)[1..] == Drop(orig, optind + 1);
  }

  /** Taking k arguments: they join the last block of options. */
  lemma LayoutTake(argv: seq<string>, orig: seq<string>, opts: seq<string>, nonopts: seq<string>,
                   optind: nat, nonoptStart: int, nonoptEnd: int, k: nat)
    requires Layout(argv, orig, opts, nonopts, optind, nonoptStart, nonoptEnd)
    requires nonoptStart != -1 ==> nonoptEnd != -1
    requires k <= |Drop(orig, optind)|
    ensures Layout(argv, orig, opts + Drop(orig, optind)[..k], nonopts, optind + k, nonoptStart, nonoptEnd)
  {
    var taken, ahead := Drop(orig, optind)[..k], Drop(orig, optind + k);
    assert Drop(orig, optind) == taken + ahead;
    if nonoptStart == -1 {
      Associate(Take(orig, 1), opts, taken, ahead);
    } else {
      var a, b := opts[..nonoptStart - 1], opts[nonoptStart - 1..];
      assert (opts + taken)[..nonoptStart - 1] == a;
      assert (opts + taken)[nonoptStart - 1..] == b + taken;
      Associate(Take(orig, 1) + a + nonopts, b, taken, ahead);
    }
  }

  lemma LayoutAhead(argv: seq<string>, orig: seq<string>, opts: seq<string>, nonopts: seq<string>,
                    optind: nat, nonoptStart: int, nonoptEnd: int)
    requires Layout(argv, orig, opts, nonopts, optind, nonoptStart, nonoptEnd) && |argv| == |orig|
    ensures optind <= |orig| ==> argv[optind..] == orig[optind..]
  {
    if optind <= |orig| {
      var front := argv[..optind];
      assert argv[optind..] == Drop(orig, optind);
    }
  }

  lemma AccountStep(total: Scan, opts: seq<string>, nonopts: seq<string>, events: seq<Event>,
                    block: seq<string>, e: Event, r: Scan)
    requires total == Scan(opts + (block + r.opts), nonopts + r.nonopts, r.tail, events + ([e] + r.events))
    ensures total == Scan((opts + block) + r.opts, nonopts + r.nonopts, r.tail, (events + [e]) + r.events)
  {
    assert opts + (block + r.opts) == (opts + block) + r.opts;
    assert events + ([e] + r.events) == (events + [e]) + r.events;
  }

  /** The scanner between two steps, as a value: the array, the static variables of the source, and
      what has been taken, skipped and returned so far. */
  datatype View = View(argv: seq<string>, orig: seq<string>, opts: seq<string>, nonopts: seq<string>,
                       events: seq<Event>, optind: int, place: string, nonoptStart: int, nonoptEnd: int)
  {
    ghost predicate Laid() {
      |argv| == |orig| && optind >= 1 && Layout(argv, orig, opts, nonopts, optind, nonoptStart, nonoptEnd)
    }

    /** What has been taken and skipped, together with `r`, is all there is. */
    ghost predicate Accounts(cfg: Config, r: Scan) {
      ScanArgs(cfg, Drop(orig, 1)) == Scan(opts + r.opts, nonopts + r.nonopts, r.tail, events + r.events)
    }

    /** In front of an argument. A block of options behind skipped non-options is not empty. */
    ghost predicate AtArgument(cfg: Config) {
      && Laid() && place == ""
      && Accounts(cfg, ScanArgs(cfg, Drop(orig, optind)))
      && (nonoptEnd != -1 ==> nonoptEnd < optind)
    }

    /** Inside argument optind, with an option at place. */
    ghost predicate AtOption(cfg: Config, whole: bool) {
      && Laid()
      && place != "" && (whole ==> place == "-" && '-' in cfg.options) && optind < |argv|
      && (nonoptStart != -1 ==> nonoptEnd != -1) && nonoptEnd <= optind
      && Accounts(cfg, ScanOption(cfg, place, whole, Drop(orig, optind)))
    }

    /** After -1: the array is the stable partition and optind is its first non-option. */
    ghost predicate Finished(cfg: Config) {
      var r := ScanArgs(cfg, Drop(orig, 1));
      && argv == Take(orig, 1) + r.opts + r.nonopts + r.tail
      && optind == 1 + |r.opts|
      && events == r.events
    }

    /** permute_args on the blocks found so far, if there are two. */
    ghost function Permuted(): seq<string> {
      if 0 <= nonoptStart <= nonoptEnd <= optind <= |argv|
      then PermuteArgs.Exchanged(argv, nonoptStart, nonoptEnd, optind)
      else argv
    }

    lemma Positions()
      requires Laid()
      ensures |argv| == |orig| && optind == 1 + |opts| + |nonopts| && (optind <= |orig| || optind == 1)
      ensures nonoptStart == -1 ==> nonopts == [] && nonoptEnd == -1
      ensures nonoptStart != -1 ==> 1 <= nonoptStart <= 1 + |opts| && |nonopts| > 0
      ensures nonoptStart != -1 && nonoptEnd == -1 ==> nonoptStart == 1 + |opts|
      ensures nonoptEnd != -1 ==> nonoptEnd == nonoptStart + |nonopts|
      ensures optind <= |argv| ==> argv[optind..] == orig[optind..]
    {
      LayoutAhead(argv, orig, opts, nonopts, optind, nonoptStart, nonoptEnd);
    }

    lemma Gathers()
      requires Laid() && nonoptEnd <= optind
      ensures Gathered(Permuted(), orig, opts, nonopts, optind)
      ensures |Permuted()| == |orig|
    {
      Positions();
      if nonoptEnd != -1 {
        LayoutPermuted(argv, orig, opts, nonopts, optind, nonoptStart, nonoptEnd);
      } else {
        LayoutGathered(argv, orig, opts, nonopts, optind, nonoptStart);
      }
    }

    lemma Ends(cfg: Config)
      requires AtArgument(cfg) && optind >= |argv|
      ensures Accounts(cfg, Scan([], [], Drop(orig, optind), []))
    {
      hide Layout;
      Positions();
      assert Drop(orig, optind) == [];
    }

    lemma Finishes(cfg: Config, v: View)
      requires Laid() && nonoptEnd <= optind && Accounts(cfg, Scan([], [], Drop(orig, optind), []))
      requires v.argv == Permuted() && v.orig == orig && v.events == events
      requires v.optind == optind - |nonopts|
      ensures v.Finished(cfg)
    {
      hide ScanArgs;
      Gathers();
      assert opts + [] == opts && nonopts + [] == nonopts && events + [] == events;
    }

    lemma SkipsAccounts(cfg: Config, v: View)
      requires 0 <= optind < |orig| && IsNonOption(cfg, orig[optind]) &&
               Accounts(cfg, ScanArgs(cfg, Drop(orig, optind)))
      requires v.orig == orig && v.opts == opts && v.events == events && v.nonopts == nonopts + [orig[optind]]
      ensures v.Accounts(cfg, ScanArgs(cfg, Drop(orig, optind + 1)))
    {
      ScanSkip(cfg, orig, optind);
      hide ScanArgs, IsNonOption, Drop;
      var r := ScanArgs(cfg, Drop(orig, optind + 1));
      Associate([], nonopts, [orig[optind]], r.nonopts);
      assert [] + nonopts == nonopts && [] + v.nonopts == v.nonopts;
    }

    lemma Skips(cfg: Config, v: View)
      requires AtArgument(cfg) && optind < |argv| && IsNonOption(cfg, orig[optind])
      requires v == View(Permuted(), orig, opts, nonopts + [orig[optind]], events, optind + 1, "", optind - |nonopts|,
                         -1)
      ensures v.AtArgument(cfg)
    {
      hide ScanArgs, IsNonOption, Layout, Accounts, Gathered, Permuted, Drop;
      Positions();
      Gathers();
      GatheredSkip(v.argv, orig, opts, nonopts, optind);
      LayoutGathered(v.argv, orig, opts, v.nonopts, v.optind, v.nonoptStart);
      SkipsAccounts(cfg, v);
    }

    /** Entering an argument that is no non-option closes the block of skipped arguments. */
    lemma Enters(cfg: Config, v: View)
      requires AtArgument(cfg) && optind < |argv| && !IsNonOption(cfg, orig[optind])
      requires v == this.(nonoptEnd := if nonoptStart != -1 && nonoptEnd == -1 then optind else nonoptEnd,
                          place := v.place)
      requires v.place == if |orig[optind]| == 1 then orig[optind] else orig[optind][1..]
      ensures v.Laid() && (nonoptStart != -1 ==> v.nonoptEnd != -1) && v.nonoptEnd <= optind
      ensures orig[optind] != "--" ==> v.AtOption(cfg, |orig[optind]| == 1)
      ensures orig[optind] == "--" ==> v.Accounts(cfg, Scan(["--"], [], Drop(orig, optind + 1), []))
    {
      hide ScanOption;
      assert Drop(orig, optind)[0] == orig[optind];
      assert Drop(orig, optind)[1..] == Drop(orig, optind + 1);
    }

    lemma Dashes(cfg: Config, v: View)
      requires Laid() && optind < |argv| && orig[optind] == "--"
      requires (nonoptStart != -1 ==> nonoptEnd != -1) && nonoptEnd <= optind
      requires Accounts(cfg, Scan(["--"], [], Drop(orig, optind + 1), []))
      requires v == this.(optind := optind + 1, opts := opts + ["--"], place := "")
      ensures v.Laid() && v.Accounts(cfg, Scan([], [], Drop(orig, v.optind), []))
    {
      hide ScanArgs, Layout;
      LayoutTake(argv, orig, opts, nonopts, optind, nonoptStart, nonoptEnd, 1);
      assert Drop(orig, optind)[..1] == ["--"];
      assert v.opts + [] == v.opts;
    }

    /** What is left once s.used arguments have been taken. */
    ghost function Rest(cfg: Config, s: Step): Scan
      requires optind >= 0 && s.used <= |Drop(orig, optind)| && (s.used == 0 ==> s.place != "" && optind < |orig|)
    {
      if s.used == 0 then ScanOption(cfg, s.place, false, Drop(orig, optind))
      else ScanArgs(cfg, Drop(orig, optind)[s.used..])
    }

    lemma TakesAccounts(cfg: Config, whole: bool, s: Step, v: View)
      requires optind >= 0 && place != "" && (whole ==> place == "-" && '-' in cfg.options) && optind < |orig|
      requires Accounts(cfg, ScanOption(cfg, place, whole, Drop(orig, optind)))
      requires s == OptionStep(cfg, place, whole, Drop(orig, optind)[1..])
      requires v.orig == orig && v.nonopts == nonopts
      requires v.opts == opts + Drop(orig, optind)[..s.used] && v.events == events + [Event(s.code, s.optarg)]
      ensures v.Accounts(cfg, Rest(cfg, s))
    {
      var ahead := Drop(orig, optind);
      ScanOptionStep(cfg, place, whole, ahead);
      hide ScanArgs, ScanOption, OptionStep, Drop;
      AccountStep(ScanArgs(cfg, Drop(orig, 1)), opts, nonopts, events, ahead[..s.used], Event(s.code, s.optarg),
                  Rest(cfg, s));
    }

    lemma Takes(cfg: Config, whole: bool, s: Step, v: View)
      requires AtOption(cfg, whole) && s == OptionStep(cfg, place, whole, Drop(orig, optind)[1..])
      requires v == this.(optind := optind + s.used, opts := opts + Drop(orig, optind)[..s.used], place := s.place,
                          events := events + [Event(s.code, s.optarg)])
      ensures if v.place == "" then v.AtArgument(cfg) else v.AtOption(cfg, false)
    {
      DropDrop(orig, optind, s.used);
      Positions();
      hide ScanArgs, ScanOption, OptionStep, Layout, Accounts, Drop;
      TakesAccounts(cfg, whole, s, v);
      TakesLaid(s.used, v);
      assert nonoptEnd <= optind && (nonoptStart != -1 ==> nonoptEnd != -1);
      hide Laid;
    }

    lemma TakesLaid(used: nat, v: View)
      requires Laid() && (nonoptStart != -1 ==> nonoptEnd != -1) && used <= |Drop(orig, optind)|
      requires v.argv == argv && v.orig == orig && v.nonopts == nonopts && v.opts == opts + Drop(orig, optind)[..used]
      requires v.optind == optind + used && v.nonoptStart == nonoptStart && v.nonoptEnd == nonoptEnd
      ensures v.Laid()
    {
      hide Layout, Drop;
      LayoutTake(argv, orig, opts, nonopts, optind, nonoptStart, nonoptEnd, used);
    }
  }

  lemma DropDrop<T>(s: seq<T>, i: nat, k: nat)
    requires k <= |Drop(s, i)|
    ensures Drop(s, i)[k..] == Drop(s, i + k)
  {
  }

  lemma DropRest<T>(s: seq<T>, t: seq<T>, i: nat)
    requires i < |s| == |t| && s[i..] == t[i..]
    ensures s[i + 1..] == Drop(t, i)[1..]
  {
    assert s[i..][1..] == s[i + 1..];
  }

  class Getopt {
    const cfg: Config
    const nargv: array<string>
    var optind: int
    var optarg: Option<string>
    var place: string
    var nonoptStart: int
    var nonoptEnd: int

    ghost const orig: seq<string>
    ghost var opts: seq<string>
    ghost var nonopts: seq<string>
    ghost var events: seq<Event>

    ghost function V(): View
      reads this, nargv
    {
      View(nargv[..], orig, opts, nonopts, events, optind, place, nonoptStart, nonoptEnd)
    }

    /** Between two calls. */
    ghost predicate Valid()
      reads this, nargv
    {
      cfg.Valid() && if place == "" then V().AtArgument(cfg) else V().AtOption(cfg, false)
    }

    ghost predicate Finished()
      reads this, nargv
    {
      V().Finished(cfg) && place == "" && nonoptStart == nonoptEnd == -1
    }

    constructor (c: Config, argv: array<string>)
      requires c.Valid()
      ensures Valid() && cfg == c && nargv == argv && orig == argv[..] && events == []
      ensures place == "" && optind == 1
    {
      cfg, nargv := c, argv;
      optind, optarg, place, nonoptStart, nonoptEnd := 1, None, "", -1, -1;
      orig, opts, nonopts, events := argv[..], [], [], [];
      new;
      assert argv[..] == Take(orig, 1) + [] + Drop(orig, 1);
    }

    /** End of the argument vector, or behind "--". Both permutations have options to move. */
    method Finish()
      requires V().Laid() && (nonoptEnd != -1 ==> nonoptEnd < optind) && place == ""
      requires V().Accounts(cfg, Scan([], [], Drop(orig, optind), []))
      modifies this, nargv
      ensures Finished() && events == old(events) && optarg == old(optarg)
    {
      hide Layout, View.Accounts, View.Laid, View.Finished;
      ghost var v := V();
      v.Positions();
      if nonoptEnd != -1 {
        PermuteArgs.PermuteArgs(nonoptStart, nonoptEnd, optind, nargv);
        optind := optind - (nonoptEnd - nonoptStart);
      } else if nonoptStart != -1 {
        optind := nonoptStart;
      }
      nonoptStart, nonoptEnd := -1, -1;
      v.Finishes(cfg, V());
    }

    /** A non-option is skipped; the permutation, if any, has options to move. */
    method Skip()
      requires V().AtArgument(cfg) && optind < nargv.Length && IsNonOption(cfg, orig[optind])
      modifies this, nargv
      ensures V().AtArgument(cfg) && optind == old(optind) + 1
      ensures events == old(events) && optarg == old(optarg)
    {
      hide Layout, View.Accounts, View.Laid;
      ghost var v := V();
      v.Positions();
      if nonoptStart == -1 {
        nonoptStart := optind;
      } else if nonoptEnd != -1 {
        PermuteArgs.PermuteArgs(nonoptStart, nonoptEnd, optind, nargv);
        nonoptStart := optind - (nonoptEnd - nonoptStart);
        nonoptEnd := -1;
      }
      nonopts := nonopts + [orig[optind]];
      optind := optind + 1;
      v.Skips(cfg, V());
    }

    /** From `start:` to the next argument that is not a non-option, or the end. */
    method SkipNonOptions()
      requires V().AtArgument(cfg)
      modifies this, nargv
      ensures V().AtArgument(cfg) && events == old(events) && optarg == old(optarg)
      ensures optind < nargv.Length ==> nargv[optind] == orig[optind] && !IsNonOption(cfg, orig[optind])
    {
      hide IsNonOption, Layout, View.Accounts;
      while optind < nargv.Length
        invariant V().AtArgument(cfg) && events == old(events) && optarg == old(optarg)
      {
        V().Positions();
        assert nargv[..][optind..][0] == nargv[optind] && orig[optind..][0] == orig[optind];
        if !IsNonOption(cfg, nargv[optind]) {
          return;
        }
        Skip();
      }
    }

    /** Into an argument that is no non-option: behind its first dash, if there is more. */
    method Enter() returns (whole: bool)
      requires V().AtArgument(cfg)
      requires optind < nargv.Length && nargv[optind] == orig[optind] && !IsNonOption(cfg, orig[optind])
      modifies this
      ensures events == old(events) && optarg == old(optarg) && optind == old(optind) && V().Laid()
      ensures (nonoptStart != -1 ==> nonoptEnd != -1) && nonoptEnd <= optind
      ensures whole || place != "-" ==> V().AtOption(cfg, whole)
      ensures !whole && place == "-" ==>
              orig[optind] == "--" && V().Accounts(cfg, Scan(["--"], [], Drop(orig, optind + 1), []))
    {
      hide Layout, View.Accounts, View.Laid, View.AtOption;
      ghost var v := V();
      v.Positions();
      place := nargv[optind];
      if nonoptStart != -1 && nonoptEnd == -1 {
        nonoptEnd := optind;
      }
      whole := |place| == 1;
      if !whole {
        place := place[1..];
      }
      assert !whole ==> orig[optind] == ['-'] + place;
      v.Enters(cfg, V());
    }

    /** "--" ends the options. */
    method TakeDashes()
      requires V().Laid() && optind < nargv.Length && orig[optind] == "--"
      requires (nonoptStart != -1 ==> nonoptEnd != -1) && nonoptEnd <= optind
      requires V().Accounts(cfg, Scan(["--"], [], Drop(orig, optind + 1), []))
      modifies this, nargv
      ensures Finished() && events == old(events) && optarg == old(optarg)
    {
      hide Layout, View.Accounts, View.Laid, View.Finished;
      ghost var v := V();
      optind := optind + 1;
      place := "";
      opts := opts + ["--"];
      v.Dashes(cfg, V());
      Finish();
    }

    /** From `start:` to an option letter; done at the end or behind "--". */
    method FindOption() returns (done: bool, whole: bool)
      requires V().AtArgument(cfg)
      modifies this, nargv
      ensures done ==> Finished()
      ensures !done ==> V().AtOption(cfg, whole)
      ensures events == old(events) && optarg == old(optarg)
    {
      hide Layout, View.Accounts, View.Laid, View.AtOption;
      SkipNonOptions();
      if optind >= nargv.Length {
        V().Ends(cfg);
        Finish();
        return true, false;
      }
      whole := Enter();
      done := !whole && place == "-";
      if done {
        TakeDashes();
      }
    }

    /** parse_long_options, with `text` behind the dashes. */
    method ParseLongOptions(text: string) returns (optchar: int)
      requires cfg.Valid() && 0 <= optind < nargv.Length && optarg == None
      modifies this`optind, this`optarg
      ensures var s := LongStep(cfg, text, nargv[old(optind) + 1..]);
              optchar == s.code && optarg == s.optarg && optind == old(optind) + s.used
    {
      optind := optind + 1;
      var eq := IndexOf(text, '=');
      var found := SearchLong(cfg.longOptions, text[..eq]);
      match found
      case Ambiguous => return BADCH;
      case Unknown => return BADCH;
      case Found(i) =>
        var o := cfg.longOptions[i];
        if o.hasArg == NoArgument && eq < |text| {
          return cfg.BadArg();
        }
        if o.hasArg == RequiredArgument || o.hasArg == OptionalArgument {
          if eq < |text| {
            optarg := Some(text[eq + 1..]);
          } else if o.hasArg == RequiredArgument {
            // Behind the last argument stands a null pointer.
            optarg := if optind < nargv.Length then Some(nargv[optind]) else None;
            optind := optind + 1;
          }
        }
        if o.hasArg == RequiredArgument && optarg == None {
          optind := optind - 1;
          return cfg.BadArg();
        }
        return Effect(o);
    }

    /** From an option letter to the end of the call. The return of -1 for a lone "-" further down
        in the source cannot be reached: such an argument has been skipped as a non-option. */
    method TakeOption(whole: bool) returns (optchar: int)
      requires cfg.Valid() && place != "" && (whole ==> place == "-" && '-' in cfg.options)
      requires 0 <= optind < nargv.Length && optarg == None
      modifies this`optind, this`optarg, this`place
      ensures var s := OptionStep(cfg, old(place), whole, nargv[old(optind) + 1..]);
              optchar == s.code && optarg == s.optarg && place == s.place && optind == old(optind) + s.used
    {
      hide LongStep, LetterStep;
      ghost var rest := nargv[optind + 1..];
      if !whole && place[0] == '-' {
        optchar := ParseLongOptions(place[1..]);
        place := "";
        return;
      }
      var c := place[0];
      place := place[1..];
      optchar := c as int;
      var oli := IndexOf(cfg.options, c);
      if c == ':' || (c == '-' && place != "") || oli == |cfg.options| {
        assert !(c == '-' && place == "");
        if place == "" {
          optind := optind + 1;
        }
        return BADCH;
      }
      if c == 'W' && CharAt(cfg.options, oli + 1) == ';' {
        if place == "" {
          optind := optind + 1;
          if optind >= nargv.Length {
            return cfg.BadArg();
          }
          place := nargv[optind];
          assert rest[0] == place && rest[1..] == nargv[optind + 1..];
        }
        optchar := ParseLongOptions(place);
        place := "";
        return;
      }
      optchar := TakeLetter(oli);
    }

    /** A letter of the option string, and its argument if it wants one. */
    method TakeLetter(oli: nat) returns (optchar: int)
      requires oli < |cfg.options| && 0 <= optind < nargv.Length && optarg == None
      modifies this`optind, this`optarg, this`place
      ensures var s := LetterStep(cfg, oli, old(place), nargv[old(optind) + 1..]);
              optchar == s.code && optarg == s.optarg && place == s.place && optind == old(optind) + s.used
    {
      optchar := cfg.options[oli] as int;
      if CharAt(cfg.options, oli + 1) != ':' {
        if place == "" {
          optind := optind + 1;
        }
      } else {
        optarg := None;
        if place != "" {
          optarg := Some(place);
        } else if CharAt(cfg.options, oli + 2) != ':' {
          optind := optind + 1;
          if optind >= nargv.Length {
            return cfg.BadArg();
          }
          optarg := Some(nargv[optind]);
        }
        place := "";
        optind := optind + 1;
      }
    }

    /** getopt_long: one call. */
    method GetoptLong() returns (optchar: int)
      requires Valid()
      modifies this, nargv
      ensures optchar == -1 ==> Finished() && events == old(events)
      ensures optchar != -1 ==> Valid() && events == old(events) + [Event(optchar, optarg)]
    {
      hide View.AtArgument, View.AtOption, View.Finished;
      optarg := None;
      var whole := false;
      if place == "" {
        var done;
        done, whole := FindOption();
        if done {
          return -1;
        }
      }
      optchar := ProcessOption(whole);
    }

    method ProcessOption(whole: bool) returns (optchar: int)
      requires cfg.Valid() && V().AtOption(cfg, whole) && optarg == None
      modifies this
      ensures optchar != -1 && Valid() && events == old(events) + [Event(optchar, optarg)]
    {
      hide Layout, View.Accounts, View.AtArgument, OptionStep;
      ghost var v := V();
      v.Positions();
      DropRest(nargv[..], orig, optind);
      assert nargv[optind + 1..] == nargv[..][optind + 1..];
      ghost var s := OptionStep(cfg, place, whole, Drop(orig, optind)[1..]);
      optchar := TakeOption(whole);
      opts := opts + Drop(orig, v.optind)[..s.used];
      events := events + [Event(optchar, optarg)];
      hide View.AtOption;
      v.Takes(cfg, whole, s, V());
    }
  }

  /** while ((c = getopt_long(...)) != -1): whatever the arguments, the calls return what scanning the
      original vector returns, and leave its stable partition behind. */
  method GetoptAll(cfg: Config, argv: array<string>) returns (events: seq<Event>, optind: nat)
    requires cfg.Valid()
    modifies argv
    ensures var r := ScanArgs(cfg, Drop(old(argv[..]), 1));
            && argv[..] == Take(old(argv[..]), 1) + r.opts + r.nonopts + r.tail
            && optind == 1 + |r.opts|
            && events == r.events
  {
    var g := new Getopt(cfg, argv);
    ghost var total := ScanArgs(cfg, Drop(g.orig, 1)).events;
    events := [];
    while true
      invariant g.Valid() && g.cfg == cfg && g.nargv == argv && g.orig == old(argv[..]) && fresh(g)
      invariant events == g.events && events <= total
      decreases |total| - |events|
    {
      var c := g.GetoptLong();
      if c == -1 {
        break;
      }
      events := events + [Event(c, g.optarg)];
    }
    optind := g.optind;
  }
}
