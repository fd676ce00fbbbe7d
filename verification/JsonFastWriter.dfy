/** Json::FastWriter of lib/json/jsoncpp.cpp. How a real number is printed is a parameter. */
module JsonFastWriter {
  import opened Wrappers
  import opened Decimal
  import opened JsonValue
  import opened JsonString
  import opened JsonNumber
  import opened JsonText
  import opened JsonParser
  import opened JsonRoundTrip
  import opened JsonSizes

  class FastWriter {
    const yaml: bool
    const omitEndingLineFeed: bool
    const style: Style
    var document: string

    constructor (yaml: bool, omitEndingLineFeed: bool, style: Style)
      ensures this.yaml == yaml && this.omitEndingLineFeed == omitEndingLineFeed && this.style == style
    {
      this.yaml, this.omitEndingLineFeed, this.style := yaml, omitEndingLineFeed, style;
      document := "";
    }

    /** The elements of an array are counted by its size as an int. */
    ghost predicate Ready() {
      style.Sane() && style.count == AsInt
    }

    method AppendToken(t: string)
      requires t != ":"
      modifies this
      ensures document == old(document) + Compact([t], yaml)
    {
      CompactOne(t, yaml);
      assert t + "" == t;
      document := document + t;
    }

    method Write(root: Value) returns (text: string)
      requires Held(root) && Ready()
      modifies this
      ensures text == Compact(ValueTokens(root, style), yaml) + if omitEndingLineFeed then "" else "\n"
    {
      document := "";
      WriteValue(root);
      assert "" + Compact(ValueTokens(root, style), yaml) == Compact(ValueTokens(root, style), yaml);
      assert document + "" == document;
      if !omitEndingLineFeed {
        document := document + "\n";
      }
      text := document;
    }

    method WriteValue(value: Value)
      requires Held(value) && Ready()
      modifies this
      ensures document == old(document) + Compact(ValueTokens(value, style), yaml)
      decreases Size(value), 1
    {
      match value {
        case Null =>
          if style.dropNulls {
            assert document + "" == document;
          } else {
            AppendToken("null");
          }
        case Int(i) =>
          var s := IntToString(i);
          NotColon(i);
          AppendToken(s);
        case UInt(u) =>
          var s := UIntToText(u);
          NotColon(u);
          AppendToken(s);
        case Real(r) => AppendToken(style.print_(r));
        case Str(s) =>
          var t := ValueToQuotedString(s);
          if s.None? {
            assert document + "" == document;
          } else {
            AppendToken(t);
          }
        case Bool(b) => AppendToken(if b then "true" else "false");
        case Array(entries) => WriteElements(entries);
        case Object(entries) => WriteMembers(entries);
      }
    }

    method WriteElements(entries: seq<Entry>)
      requires HeldEntries(entries, true) && Ready()
      modifies this
      ensures document == old(document) + Compact(ValueTokens(Array(entries), style), yaml)
      decreases 1 + SizeOf(entries), 0
    {
      hide Compact, ValueTokens, Held, HeldEntries, Lookup;
      AppendToken("[");
      var size := IntSize(entries);
      var index := 0;
      ghost var n := Shown(entries, AsInt);
      ghost var all := old(document) + Compact(["["] + ElementTokens(entries, 0, n, style) + ["]"], yaml);
      Split3(old(document), ["["], ElementTokens(entries, 0, n, style), ["]"], yaml);
      while index < size
        invariant 0 <= index <= n
        invariant document + Compact(ElementTokens(entries, index, n, style), yaml) + Compact(["]"], yaml) == all
      {
        HeldLookup(entries, Index(index));
        ghost var comma: seq<string> := if index > 0 then [","] else [];
        ghost var value := ValueTokens(Lookup(entries, Index(index)), style);
        Split3(document, comma, value, ElementTokens(entries, index + 1, n, style), yaml);
        if index > 0 {
          AppendToken(",");
        } else {
          EmptyCompact(document, yaml);
        }
        WriteValue(Lookup(entries, Index(index)));
        index := index + 1;
      }
      EmptyCompact(document, yaml);
      AppendToken("]");
      ArrayTokens(entries, style);
    }

    method WriteMembers(entries: seq<Entry>)
      requires Sorted(entries) && HeldEntries(entries, false) && Ready()
      modifies this
      ensures document == old(document) + Compact(ValueTokens(Object(entries), style), yaml)
      decreases 1 + SizeOf(entries), 0
    {
      hide Compact, ValueTokens, Held, Lookup;
      var members := MemberNames(entries);
      AppendToken("{");
      ghost var all := old(document) + Compact(["{"] + MemberTokens(entries, 0, style) + ["}"], yaml);
      Split3(old(document), ["{"], MemberTokens(entries, 0, style), ["}"], yaml);
      for it := 0 to |members|
        invariant document + Compact(MemberTokens(entries, it, style), yaml) + Compact(["}"], yaml) == all
      {
        WriteMember(entries, it, members[it]);
      }
      EmptyCompact(document, yaml);
      AppendToken("}");
      ObjectTokens(entries, style);
    }

    /** A comma unless it is the first, the name, and the value that is found under it. */
    method WriteMember(entries: seq<Entry>, it: nat, name: string)
      requires Sorted(entries) && HeldEntries(entries, false) && Ready()
      requires it < |entries| && entries[it].key == Name(name)
      modifies this
      ensures document + Compact(MemberTokens(entries, it + 1, style), yaml) ==
              old(document) + Compact(MemberTokens(entries, it, style), yaml)
      decreases SizeOf(entries), 2
    {
      SizeOfOne(entries, it);
      assert HeldEntry(entries[it], false);
      FindsEntry(entries, it);
      hide Compact, ValueTokens, Held, Lookup, HeldEntries, Sorted;
      ghost var comma: seq<string> := if it > 0 then [","] else [];
      ghost var tag, value := [Quoted(name), ":"], ValueTokens(entries[it].value, style);
      Split4(document, comma, tag, value, MemberTokens(entries, it + 1, style), yaml);
      if it > 0 {
        AppendToken(",");
      } else {
        EmptyCompact(document, yaml);
      }
      WriteLabel(name);
      WriteValue(Lookup(entries, Name(name)));
    }

    method WriteLabel(name: string)
      modifies this
      ensures document == old(document) + Compact([Quoted(name), ":"], yaml)
    {
      var quoted := ValueToQuotedString(Some(name));
      AppendToken(quoted);
      CompactOne(":", yaml);
      CompactConcat([Quoted(name)], [":"], yaml);
      assert [Quoted(name)] + [":"] == [Quoted(name), ":"];
      hide Compact, Quoted;
      document := document + if yaml then ": " else ":";
    }
  }

  lemma NotColon(n: int)
    ensures IntNumeral(n) != ":"
  {
    if n >= 0 {
      assert IsDigit(Numeral(n)[0]);
    }
  }

  lemma EmptyCompact(document: string, yaml: bool)
    ensures Compact([], yaml) == "" && document + "" == document
  {
  }

  lemma Split3(document: string, a: seq<string>, b: seq<string>, c: seq<string>, yaml: bool)
    ensures document + Compact(a + b + c, yaml) == document + Compact(a, yaml) + Compact(b, yaml) + Compact(c, yaml)
  {
    CompactConcat(a + b, c, yaml);
    CompactConcat(a, b, yaml);
    hide Compact;
    var x, y, z := Compact(a, yaml), Compact(b, yaml), Compact(c, yaml);
    assert document + (x + y + z) == document + x + y + z;
  }

  lemma Split4(document: string, a: seq<string>, b: seq<string>, c: seq<string>, d: seq<string>, yaml: bool)
    ensures document + Compact(a + b + c + d, yaml) ==
            document + Compact(a, yaml) + Compact(b, yaml) + Compact(c, yaml) + Compact(d, yaml)
  {
    Split3(document, a + b, c, d, yaml);
    CompactConcat(a, b, yaml);
    hide Compact;
    assert document + (Compact(a, yaml) + Compact(b, yaml)) == document + Compact(a, yaml) + Compact(b, yaml);
  }

  /** What the fast writer writes is read back as the value in its normal form. */
  lemma FastTextIsRead(f: Settings, v: Value, st: Style, yaml: bool, tail: string, root: Value)
    requires Plain(v) && !st.dropNulls && AllSpace(tail)
    ensures Parse(f, Compact(ValueTokens(v, st), yaml) + tail, root) ==
            if f.strictRoot && !v.Array? && !v.Object? then Fail(Normal(v, st.count), [BadRoot], "")
            else Outcome(true, Normal(v, st.count), [], "")
  {
    SpreadTokens(ValueTokens(v, st), yaml);
    AnyLayoutIsRead(f, v, st, Spread(ValueTokens(v, st), yaml), tail, root);
  }

  /** Integers keep their value and arrays their elements through writing and reading exactly when every array
      has a size that fits an int. */
  lemma FastRoundTripIffSizesFit(f: Settings, v: Value, st: Style, yaml: bool, tail: string, root: Value)
    requires Plain(v) && !st.dropNulls && st.count == AsInt && AllSpace(tail) && !f.strictRoot
    ensures Parse(f, Compact(ValueTokens(v, st), yaml) + tail, root) == Outcome(true, Normal(v, InFull), [], "") <==>
            SizesFit(v, AsInt)
  {
    FastTextIsRead(f, v, st, yaml, tail, root);
    AllIsWrittenIffSizesFit(v, AsInt);
    hide Parse, Compact, ValueTokens, Normal, SizesFit, Plain;
  }
}
