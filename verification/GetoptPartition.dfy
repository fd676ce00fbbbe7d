/** What getopt_long makes of the arguments, described without the scanner: a partition into blocks, of which
    there is only one, and which keeps all arguments and the order of options and of non-options. */
module GetoptPartition {
  import opened Getopt

  // ----- Blocks -----

  /** How many arguments the letters from `place` on take, the next argument being the first of `rest`. */
  function Uses(cfg: Config, place: string, whole: bool, rest: seq<string>): (n: nat)
    requires place != "" && (whole ==> place == "-" && '-' in cfg.options)
    ensures 1 <= n <= 1 + |rest|
    decreases |place|
  {
    var s := OptionStep(cfg, place, whole, rest);
    if s.used == 0 then Uses(cfg, s.place, false, rest) else s.used
  }

  /** How many arguments belong together from `arg` on. */
  function BlockLength(cfg: Config, arg: string, rest: seq<string>): (n: nat)
    ensures 1 <= n <= 1 + |rest|
  {
    if IsNonOption(cfg, arg) || arg == "--" then 1
    else if |arg| == 1 then Uses(cfg, arg, true, rest)
    else Uses(cfg, arg[1..], false, rest)
  }

  function Flatten(blocks: seq<seq<string>>): seq<string> {
    if blocks == [] then [] else blocks[0] + Flatten(blocks[1..])
  }

  /** The block is as long as its first argument makes it, all from there on being `all`. */
  predicate IsBlock(cfg: Config, block: seq<string>, all: seq<string>) {
    block != [] && all != [] && |block| == BlockLength(cfg, block[0], all[1..])
  }

  predicate BlockAt(cfg: Config, blocks: seq<seq<string>>, i: nat, tail: seq<string>)
    requires i < |blocks|
  {
    IsBlock(cfg, blocks[i], Flatten(blocks[i..]) + tail)
  }

  lemma BlockBehind(cfg: Config, b: seq<string>, blocks: seq<seq<string>>, i: nat, tail: seq<string>)
    requires i < |blocks|
    ensures BlockAt(cfg, [b] + blocks, i + 1, tail) == BlockAt(cfg, blocks, i, tail)
  {
    hide IsBlock, Flatten;
    assert ([b] + blocks)[i + 1..] == blocks[i..];
  }

  lemma FirstBlock(cfg: Config, b: seq<string>, blocks: seq<seq<string>>, tail: seq<string>)
    ensures Flatten([b] + blocks) + tail == b + (Flatten(blocks) + tail)
    ensures BlockAt(cfg, [b] + blocks, 0, tail) == IsBlock(cfg, b, b + (Flatten(blocks) + tail))
  {
    var all := [b] + blocks;
    assert all[1..] == blocks && all[0..] == all;
    assert Flatten(all) == b + Flatten(blocks);
    hide IsBlock, Flatten;
    assert b + Flatten(blocks) + tail == b + (Flatten(blocks) + tail);
  }

  /** The blocks and the tail make up the arguments; "--" begins the last block or none, and only behind it
      there is a tail. */
  ghost predicate IsPartition(cfg: Config, blocks: seq<seq<string>>, tail: seq<string>, args: seq<string>) {
    && Flatten(blocks) + tail == args
    && (forall i :: 0 <= i < |blocks| ==> BlockAt(cfg, blocks, i, tail) && blocks[i] != [])
    && (forall i :: 0 <= i < |blocks| - 1 ==> blocks[i][0] != "--")
    && (tail != [] ==> blocks != [] && blocks[|blocks| - 1][0] == "--")
  }

  /** Blocks that begin with an option, and those that do not. */
  function Blocks(cfg: Config, blocks: seq<seq<string>>, nonopts: bool): seq<string> {
    if blocks == [] then []
    else
      var keep := blocks[0] != [] && IsNonOption(cfg, blocks[0][0]) == nonopts;
      (if keep then blocks[0] else []) + Blocks(cfg, blocks[1..], nonopts)
  }

  ghost predicate PartitionedAs(cfg: Config, blocks: seq<seq<string>>, opts: seq<string>, nonopts: seq<string>,
                                tail: seq<string>, args: seq<string>)
  {
    IsPartition(cfg, blocks, tail, args) && opts == Blocks(cfg, blocks, false) && nonopts == Blocks(cfg, blocks, true)
  }

  /** The rest of a partition is a partition of the rest. */
  lemma PartitionTail(cfg: Config, blocks: seq<seq<string>>, tail: seq<string>, args: seq<string>)
    requires IsPartition(cfg, blocks, tail, args) && blocks != []
    ensures var b := blocks[0];
            && IsBlock(cfg, b, args) && b <= args && b[0] == args[0]
            && (b[0] != "--" ==> IsPartition(cfg, blocks[1..], tail, args[|b|..]))
            && (b[0] == "--" ==> blocks == [["--"]] && tail == args[1..])
  {
    var b, more := blocks[0], blocks[1..];
    assert blocks == [b] + more;
    FirstBlock(cfg, b, more, tail);
    assert BlockAt(cfg, blocks, 0, tail);
    hide BlockLength, Flatten, BlockAt;
    forall i | 0 <= i < |more| ensures BlockAt(cfg, more, i, tail) && more[i] != [] {
      BlockBehind(cfg, b, more, i, tail);
      assert BlockAt(cfg, blocks, i + 1, tail) && more[i] == blocks[i + 1];
    }
    hide IsBlock;
    if b[0] == "--" {
      OneBlock(cfg, blocks, tail, args);
    } else {
      forall i | 0 <= i < |more| - 1 ensures more[i][0] != "--" {
        assert more[i] == blocks[i + 1];
      }
    }
  }

  lemma OneBlock(cfg: Config, blocks: seq<seq<string>>, tail: seq<string>, args: seq<string>)
    requires IsPartition(cfg, blocks, tail, args) && blocks != [] && IsBlock(cfg, blocks[0], args) &&
             blocks[0][0] == "--"
    ensures blocks == [["--"]] && tail == args[1..]
  {
    assert |blocks| == 1;
    assert blocks[0] == ["--"] && blocks[1..] == [];
    assert Flatten(blocks) == ["--"] + [];
  }

  /** There is one way to cut arguments into blocks. */
  lemma {:induction false} PartitionIsUnique(cfg: Config, blocks: seq<seq<string>>, tail: seq<string>,
                                             blocks': seq<seq<string>>, tail': seq<string>, args: seq<string>)
    requires IsPartition(cfg, blocks, tail, args) && IsPartition(cfg, blocks', tail', args)
    ensures blocks == blocks' && tail == tail'
    decreases |args|
  {
    if blocks == [] || blocks' == [] {
      NoBlocks(cfg, blocks, tail, args);
      NoBlocks(cfg, blocks', tail', args);
    } else {
      PartitionTail(cfg, blocks, tail, args);
      PartitionTail(cfg, blocks', tail', args);
      hide BlockLength, Flatten, IsPartition;
      assert blocks[0] == blocks'[0];
      if args[0] != "--" {
        PartitionIsUnique(cfg, blocks[1..], tail, blocks'[1..], tail', args[|blocks[0]|..]);
        assert blocks == [blocks[0]] + blocks[1..] && blocks' == [blocks'[0]] + blocks'[1..];
      }
    }
  }

  lemma NoBlocks(cfg: Config, blocks: seq<seq<string>>, tail: seq<string>, args: seq<string>)
    requires IsPartition(cfg, blocks, tail, args)
    ensures blocks == [] ==> args == [] && tail == []
    ensures args == [] ==> blocks == [] && tail == []
  {
    if blocks != [] {
      PartitionTail(cfg, blocks, tail, args);
    }
  }

  lemma AddBlock(cfg: Config, b: seq<string>, blocks: seq<seq<string>>, tail: seq<string>, args: seq<string>)
    requires args != [] && 0 < |b| && b <= args && |b| == BlockLength(cfg, args[0], args[1..]) && b[0] != "--"
    requires IsPartition(cfg, blocks, tail, args[|b|..])
    ensures IsPartition(cfg, [b] + blocks, tail, args)
    ensures forall nonopts :: Blocks(cfg, [b] + blocks, nonopts) ==
                              (if IsNonOption(cfg, b[0]) == nonopts then b else []) + Blocks(cfg, blocks, nonopts)
  {
    var all := [b] + blocks;
    assert all[1..] == blocks;
    FirstBlock(cfg, b, blocks, tail);
    assert b + args[|b|..] == args;
    hide BlockLength, Flatten, BlockAt;
    forall i | 0 <= i < |all| ensures BlockAt(cfg, all, i, tail) && all[i] != [] {
      if i > 0 {
        BlockBehind(cfg, b, blocks, i - 1, tail);
      }
    }
    hide IsBlock;
    forall i | 0 <= i < |all| - 1 ensures all[i][0] != "--" {
      assert i > 0 ==> all[i] == blocks[i - 1];
    }
  }

  /** The letters of an argument, whatever the calls return on the way, take the arguments they use. */
  lemma {:induction false} ScanTakesUses(cfg: Config, place: string, whole: bool, args: seq<string>)
    requires args != [] && place != "" && (whole ==> place == "-" && '-' in cfg.options)
    ensures var n := Uses(cfg, place, whole, args[1..]);
            var r, s := ScanArgs(cfg, args[n..]), ScanOption(cfg, place, whole, args);
            s.opts == args[..n] + r.opts && s.nonopts == r.nonopts && s.tail == r.tail
    decreases |place|
  {
    ScanOptionStep(cfg, place, whole, args);
    hide ScanOption, ScanArgs;
    var s := OptionStep(cfg, place, whole, args[1..]);
    if s.used == 0 {
      ScanTakesUses(cfg, s.place, false, args);
      var r := ScanOption(cfg, s.place, false, args);
      assert args[..0] + r.opts == r.opts;
    }
  }

  lemma ScanTakesBlock(cfg: Config, args: seq<string>)
    requires args != [] && args[0] != "--"
    ensures var n := BlockLength(cfg, args[0], args[1..]);
            var r, s, b := ScanArgs(cfg, args[n..]), ScanArgs(cfg, args), args[..n];
            && s.opts == (if IsNonOption(cfg, args[0]) then [] else b) + r.opts
            && s.nonopts == (if IsNonOption(cfg, args[0]) then b else []) + r.nonopts
            && s.tail == r.tail
  {
    if IsNonOption(cfg, args[0]) {
      var r := ScanArgs(cfg, args[1..]);
      assert args[..1] == [args[0]] && [] + r.opts == r.opts;
    } else {
      var whole := |args[0]| == 1;
      var place := if whole then args[0] else args[0][1..];
      assert ScanArgs(cfg, args) == ScanOption(cfg, place, whole, args);
      ScanTakesUses(cfg, place, whole, args);
      assert BlockLength(cfg, args[0], args[1..]) == Uses(cfg, place, whole, args[1..]);
      hide OptionStep, ScanOption, ScanArgs, Uses, BlockLength;
      var r := ScanArgs(cfg, args[Uses(cfg, place, whole, args[1..])..]);
      assert [] + r.nonopts == r.nonopts;
    }
  }

  lemma {:induction false} ScanPartitions(cfg: Config, args: seq<string>) returns (blocks: seq<seq<string>>)
    ensures var r := ScanArgs(cfg, args); PartitionedAs(cfg, blocks, r.opts, r.nonopts, r.tail, args)
    decreases |args|
  {
    if args == [] {
      blocks := [];
    } else if args[0] == "--" {
      blocks := [["--"]];
      DashesPartition(cfg, args);
    } else {
      ScanTakesBlock(cfg, args);
      var n := BlockLength(cfg, args[0], args[1..]);
      hide BlockLength, ScanArgs, IsNonOption;
      var more := ScanPartitions(cfg, args[n..]);
      AddBlock(cfg, args[..n], more, ScanArgs(cfg, args[n..]).tail, args);
      blocks := [args[..n]] + more;
    }
  }

  lemma DashesPartition(cfg: Config, args: seq<string>)
    requires args != [] && args[0] == "--"
    ensures ScanArgs(cfg, args) == Scan(["--"], [], args[1..], [])
    ensures PartitionedAs(cfg, [["--"]], ["--"], [], args[1..], args)
  {
    var blocks := [["--"]];
    assert blocks[0..] == blocks && blocks[1..] == [];
    assert Flatten(blocks) == ["--"] + [] == ["--"];
    assert !IsNonOption(cfg, "--");
    assert Blocks(cfg, [], true) == [] && Blocks(cfg, [], false) == [];
    assert Blocks(cfg, blocks, false) == ["--"] + [] == ["--"];
    assert Blocks(cfg, blocks, true) == [] + Blocks(cfg, [], true) == [];
  }

  /** Options, non-options and tail are those of the one partition into blocks, and no other split is. */
  lemma ScanIsStablePartition(cfg: Config, opts: seq<string>, nonopts: seq<string>, tail: seq<string>,
                              args: seq<string>)
    ensures var r := ScanArgs(cfg, args);
            opts == r.opts && nonopts == r.nonopts && tail == r.tail <==>
            exists blocks :: PartitionedAs(cfg, blocks, opts, nonopts, tail, args)
  {
    hide ScanArgs;
    var r := ScanArgs(cfg, args);
    var own := ScanPartitions(cfg, args);
    if blocks :| PartitionedAs(cfg, blocks, opts, nonopts, tail, args) {
      PartitionIsUnique(cfg, blocks, tail, own, r.tail, args);
    }
  }

  // ----- Order and completeness -----

  /** s is an interleaving of a and b: both are subsequences and together they make up s. */
  predicate Merges(a: seq<string>, b: seq<string>, s: seq<string>)
    decreases |s|
  {
    if s == [] then a == [] && b == []
    else
      || (a != [] && a[0] == s[0] && Merges(a[1..], b, s[1..]))
      || (b != [] && b[0] == s[0] && Merges(a, b[1..], s[1..]))
  }

  lemma {:induction false} MergesKeepsAll(a: seq<string>, b: seq<string>, s: seq<string>)
    requires Merges(a, b, s)
    ensures multiset(a + b) == multiset(s)
    decreases |s|
  {
    if s != [] {
      assert s == [s[0]] + s[1..];
      if a != [] && a[0] == s[0] && Merges(a[1..], b, s[1..]) {
        MergesKeepsAll(a[1..], b, s[1..]);
        assert a + b == [a[0]] + (a[1..] + b);
      } else {
        MergesKeepsAll(a, b[1..], s[1..]);
        assert b == [b[0]] + b[1..];
      }
    }
  }

  lemma {:induction false} MergesBlock(p: seq<string>, a: seq<string>, b: seq<string>, s: seq<string>)
    requires Merges(a, b, s)
    ensures Merges(p + a, b, p + s)
  {
    if p == [] {
      assert p + a == a && p + s == s;
    } else {
      MergesBlock(p[1..], a, b, s);
      assert (p + a)[1..] == p[1..] + a && (p + s)[1..] == p[1..] + s;
    }
  }

  /** Options and non-options, each in their original order, make up everything before the tail;
      the tail begins behind a "--". */
  ghost predicate Interleaved(cfg: Config, opts: seq<string>, nonopts: seq<string>, tail: seq<string>,
                              args: seq<string>) {
    && |tail| <= |args|
    && Merges(opts, nonopts, args[..|args| - |tail|])
    && args[|args| - |tail|..] == tail
    && (forall i :: 0 <= i < |nonopts| ==> IsNonOption(cfg, nonopts[i]))
    && (tail != [] ==> opts != [] && opts[|opts| - 1] == "--")
  }

  lemma MergedOption(cfg: Config, block: seq<string>, opts: seq<string>, nonopts: seq<string>, tail: seq<string>,
                     rest: seq<string>)
    requires Interleaved(cfg, opts, nonopts, tail, rest)
    ensures Interleaved(cfg, block + opts, nonopts, tail, block + rest)
  {
    hide Merges, IsNonOption;
    var n := |rest| - |tail|;
    MergesBlock(block, opts, nonopts, rest[..n]);
    assert (block + rest)[..|block| + n] == block + rest[..n];
    assert (block + rest)[|block| + n..] == rest[n..];
  }

  lemma MergedNonOption(cfg: Config, arg: string, opts: seq<string>, nonopts: seq<string>, tail: seq<string>,
                        rest: seq<string>)
    requires Interleaved(cfg, opts, nonopts, tail, rest) && IsNonOption(cfg, arg)
    ensures Interleaved(cfg, opts, [arg] + nonopts, tail, [arg] + rest)
  {
    hide IsNonOption;
    var n := |rest| - |tail|;
    var s := ([arg] + rest)[..1 + n];
    assert s == [arg] + rest[..n] && s[1..] == rest[..n];
    assert ([arg] + nonopts)[1..] == nonopts;
    assert Merges(opts, [arg] + nonopts, s);
    assert ([arg] + rest)[1 + n..] == rest[n..];
  }

  ghost predicate IsMerged(cfg: Config, r: Scan, args: seq<string>) {
    Interleaved(cfg, r.opts, r.nonopts, r.tail, args)
  }

  lemma {:induction false} ScanMerges(cfg: Config, args: seq<string>)
    ensures IsMerged(cfg, ScanArgs(cfg, args), args)
    decreases |args|, 1, 0
  {
    assert Merges([], [], []) && Merges(["--"], [], ["--"]);
    hide OptionStep, Merges;
    if args == [] {
    } else if IsNonOption(cfg, args[0]) {
      var r := ScanArgs(cfg, args[1..]);
      ScanMerges(cfg, args[1..]);
      MergedNonOption(cfg, args[0], r.opts, r.nonopts, r.tail, args[1..]);
      assert args == [args[0]] + args[1..];
    } else if args[0] == "--" {
      assert args[..1] == ["--"];
    } else if |args[0]| == 1 {
      OptionMerges(cfg, args[0], true, args);
    } else {
      OptionMerges(cfg, args[0][1..], false, args);
    }
  }

  lemma {:induction false} OptionMerges(cfg: Config, place: string, whole: bool, args: seq<string>)
    requires args != [] && place != "" && (whole ==> place == "-" && '-' in cfg.options)
    ensures IsMerged(cfg, ScanOption(cfg, place, whole, args), args)
    decreases |args|, 0, |place|
  {
    ScanOptionStep(cfg, place, whole, args);
    hide OptionStep, ScanOption, ScanArgs, Interleaved;
    var s := OptionStep(cfg, place, whole, args[1..]);
    if s.used == 0 {
      var r := ScanOption(cfg, s.place, false, args);
      OptionMerges(cfg, s.place, false, args);
      assert args[..0] + r.opts == r.opts;
    } else {
      var rest := args[s.used..];
      var r := ScanArgs(cfg, rest);
      ScanMerges(cfg, rest);
      MergedOption(cfg, args[..s.used], r.opts, r.nonopts, r.tail, rest);
      assert args == args[..s.used] + rest;
    }
  }

  /** Nothing is lost and nothing is added. */
  lemma ScanKeepsAll(cfg: Config, args: seq<string>)
    ensures var r := ScanArgs(cfg, args); multiset(r.opts + r.nonopts + r.tail) == multiset(args)
  {
    hide Merges, ScanArgs;
    var r := ScanArgs(cfg, args);
    ScanMerges(cfg, args);
    MergesKeepsAll(r.opts, r.nonopts, args[..|args| - |r.tail|]);
    assert args == args[..|args| - |r.tail|] + r.tail;
  }
}
