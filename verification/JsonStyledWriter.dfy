/** Json::StyledWriter of lib/json/jsoncpp.cpp, for values without comments. How a real number is printed is
    a parameter. */
module JsonStyledWriter {
  import opened Wrappers
  import opened JsonValue
  import opened JsonString
  import opened JsonNumber
  import opened JsonParser
  import opened JsonText
  import opened JsonRoundTrip
  import opened JsonSizes
  import opened JsonStyledText

  class StyledWriter {
    const style: Style
    var document: string
    var indentString: string
    var childValues: seq<string>
    var addChildValues: bool

    constructor (style: Style)
      ensures this.style == style
    {
      this.style := style;
      document, indentString, childValues, addChildValues := "", "", [], false;
    }

    // ----- Pieces of text -----

    method PushValue(value: string)
      modifies this`document, this`childValues
      ensures if addChildValues then document == old(document) && childValues == old(childValues) + [value]
              else document == old(document) + value && childValues == old(childValues)
    {
      if addChildValues {
        childValues := childValues + [value];
      } else {
        document := document + value;
      }
    }

    method WriteIndent()
      modifies this`document
      ensures document == Indented(old(document), indentString)
    {
      if document != "" {
        var last := document[|document| - 1];
        if last == ' ' {
          return;
        }
        if last != '\n' {
          document := document + "\n";
        }
      }
      document := document + indentString;
    }

    method WriteWithIndent(value: string)
      modifies this`document
      ensures document == Indented(old(document), indentString) + value
    {
      WriteIndent();
      document := document + value;
    }

    method Indent()
      modifies this`indentString
      ensures indentString == old(indentString) + "   "
    {
      indentString := indentString + seq(INDENT_SIZE, i => ' ');
      assert seq(INDENT_SIZE, i => ' ') == "   ";
    }

    method Unindent(ghost before: string)
      requires indentString == before + "   "
      modifies this`indentString
      ensures indentString == before
    {
      assert |indentString| >= INDENT_SIZE;
      indentString := indentString[..|indentString| - INDENT_SIZE];
    }

    // ----- Values -----

    /** The value has been written: as one more child value, or else to the document. */
    ghost predicate Wrote(value: Value, document0: string, childValues0: seq<string>)
      reads this
    {
      if addChildValues then document == document0 && childValues == childValues0 + [ChildText(value, style)]
      else document == Styled(value, style, document0, indentString)
    }

    /** False stands for the exception that ends the writing. */
    method WriteValue(value: Value) returns (ok: bool)
      requires Held(value) && (addChildValues ==> !HasChildren(value))
      modifies this
      ensures ok == Survives(value)
      ensures ok ==> addChildValues == old(addChildValues) && indentString == old(indentString)
      ensures ok ==> Wrote(value, old(document), old(childValues))
      decreases Size(value), 3
    {
      ok := true;
      match value {
        case Null => PushValue("null");
        case Int(i) =>
          var s := IntToString(i);
          PushValue(s);
        case UInt(u) =>
          var s := UIntToText(u);
          PushValue(s);
        case Real(r) => PushValue(style.print_(r));
        case Str(s) =>
          var t := ValueToQuotedString(s);
          PushValue(t);
        case Bool(b) => PushValue(if b then "true" else "false");
        case Array(entries) => ok := WriteArrayValue(entries);
        case Object(entries) =>
          if entries == [] {
            PushValue("{}");
          } else {
            ok := WriteMembers(entries);
          }
      }
    }

    // ----- Arrays -----

    /** The child values are those of the array, whose elements have no children of their own. */
    ghost predicate ChildrenOf(entries: seq<Entry>)
      reads this`childValues
    {
      && childValues == Texts(entries, ArraySize(entries), style)
      && forall i :: 0 <= i < ArraySize(entries) ==> !HasChildren(Lookup(entries, Index(i)))
    }

    method WriteArrayValue(entries: seq<Entry>) returns (ok: bool)
      requires Held(Array(entries)) && (addChildValues ==> ArraySize(entries) == 0)
      modifies this
      ensures ok == Survives(Array(entries))
      ensures ok ==> addChildValues == old(addChildValues) && indentString == old(indentString)
      ensures ok ==> Wrote(Array(entries), old(document), old(childValues))
      decreases 1 + SizeOf(entries), 2
    {
      hide Held;
      var size := ArraySize(entries);
      ok := true;
      if size == 0 {
        PushValue("[]");
        return;
      }
      ArraySurvives(entries);
      hide Survives, Wide, Nested, LineLength;
      var isArrayMultiLine;
      ok, isArrayMultiLine := IsMultilineArray(entries);
      if !ok {
        return;
      }
      if isArrayMultiLine {
        ok := WriteLines(entries);
      } else {
        WriteLine(entries);
        ChildlessElements(entries);
      }
    }

    lemma ChildlessElements(entries: seq<Entry>)
      requires ChildrenOf(entries)
      ensures ElementsSurvive(entries)
    {
      forall i | 0 <= i < ArraySize(entries) ensures Survives(Lookup(entries, Index(i))) {
        ChildlessSurvives(Lookup(entries, Index(i)));
        hide Survives;
      }
    }

    method WriteLine(entries: seq<Entry>)
      requires ChildrenOf(entries)
      modifies this`document
      ensures document == old(document) + "[ " + Joined(childValues, |childValues|) + " ]"
    {
      var size := ArraySize(entries);
      assert |childValues| == size;
      JoinedNone(document + "[ ", childValues);
      hide ChildrenOf, Joined, Texts, ArraySize;
      document := document + "[ ";
      var index := 0;
      while index < size
        invariant 0 <= index <= size
        invariant document == old(document) + "[ " + Joined(childValues, index)
      {
        JoinedNext(old(document) + "[ ", childValues, index);
        var separator := if index > 0 then ", " else "";
        document := document + separator;
        document := document + childValues[index];
        assert document == old(document) + "[ " + Joined(childValues, index) + separator + childValues[index];
        index := index + 1;
      }
      document := document + " ]";
    }

    method WriteLines(entries: seq<Entry>) returns (ok: bool)
      requires !addChildValues && HeldEntries(entries, true) && ArraySize(entries) > 0
      requires childValues == [] || ChildrenOf(entries)
      modifies this
      ensures ok == ElementsSurvive(entries)
      ensures ok ==> !addChildValues && indentString == old(indentString)
      ensures ok ==>
                var start, inner := Indented(old(document), indentString) + "[", indentString + "   ";
                document == Indented(StyledElements(entries, ArraySize(entries), style, start, inner), indentString) +
                  "]"
      decreases 1 + SizeOf(entries), 1
    {
      hide Lookup, Survives, ChildrenOf, HeldEntries, StyledElements, Indented, Styled, ElementsSoFar;
      var size := ArraySize(entries);
      ghost var start, inner := Indented(document, indentString) + "[", indentString + "   ";
      WriteWithIndent("[");
      Indent();
      var hasChildValue := childValues != [];
      var index := 0;
      NoneYet(entries, style, start, inner);
      while true
        invariant 0 <= index < size && !addChildValues && indentString == inner
        invariant hasChildValue ==> ChildrenOf(entries)
        invariant forall i :: 0 <= i < index ==> Survives(Lookup(entries, Index(i)))
        invariant document == ElementsSoFar(entries, index, style, start, inner)
        decreases size - index
      {
        ok := WriteElement(entries, index, hasChildValue);
        if !ok {
          return;
        }
        OneMore(entries, index, style, start, inner);
        index := index + 1;
        if index == size {
          break;
        }
        document := document + ",";
      }
      Unindent(old(indentString));
      WriteWithIndent("]");
    }

    method WriteElement(entries: seq<Entry>, index: nat, hasChildValue: bool) returns (ok: bool)
      requires !addChildValues && HeldEntries(entries, true) && index < ArraySize(entries)
      requires hasChildValue ==> ChildrenOf(entries)
      modifies this
      ensures ok == Survives(Lookup(entries, Index(index)))
      ensures ok ==> !addChildValues && indentString == old(indentString)
      ensures ok && hasChildValue ==> ChildrenOf(entries)
      ensures ok ==>
                document == Styled(Lookup(entries, Index(index)), style, Indented(old(document), indentString),
                                   indentString)
      decreases 1 + SizeOf(entries), 0
    {
      var v := Lookup(entries, Index(index));
      hide Survives, Styled, Indented;
      if hasChildValue {
        ChildlessSurvives(v);
        ChildlessIsStyled(v, style, Indented(document, indentString), indentString);
        WriteWithIndent(childValues[index]);
        ok := true;
      } else {
        HeldLookup(entries, Index(index));
        hide Lookup;
        WriteIndent();
        ok := WriteValue(v);
      }
    }

    /** False if a negative number of child values is to be reserved. */
    method IsMultilineArray(entries: seq<Entry>) returns (ok: bool, isMultiLine: bool)
      requires !addChildValues && HeldEntries(entries, true) && ArraySize(entries) > 0
      modifies this
      ensures ok == (ArraySize(entries) <= MAX_INT || Wide(entries))
      ensures ok ==> !addChildValues && indentString == old(indentString) && document == old(document)
      ensures ok ==> childValues == [] || ChildrenOf(entries)
      ensures ok && !isMultiLine ==> ChildrenOf(entries)
      ensures ok ==> (isMultiLine <==> ManyLines(entries, style))
      decreases 1 + SizeOf(entries), 1
    {
      hide Lookup, HasChildren;
      var size := IntSize(entries);
      isMultiLine := ToInt(size * 3) >= RIGHT_MARGIN;
      childValues := [];
      ok := true;
      if !isMultiLine {
        isMultiLine := AnyHasChildren(entries, size);
      }
      if !isMultiLine {
        if size < 0 {
          return false, isMultiLine;
        }
        hide ToInt, LineLength;
        var lineLength := MeasureLine(entries, size);
        isMultiLine := lineLength >= RIGHT_MARGIN;
      }
    }

    static method AnyHasChildren(entries: seq<Entry>, size: int) returns (any: bool)
      ensures any == Nested(entries, size)
    {
      any := false;
      var index := 0;
      while index < size && !any
        invariant 0 <= index && (index <= size || index == 0)
        invariant any == Nested(entries, index)
        decreases size - index
      {
        any := HasChildren(Lookup(entries, Index(index)));
        index := index + 1;
      }
    }

    /** The elements as child values, and the length of the line they would make. */
    method MeasureLine(entries: seq<Entry>, size: int) returns (lineLength: int)
      requires !addChildValues && HeldEntries(entries, true) && 0 < size == ArraySize(entries)
      requires childValues == [] && !Nested(entries, size)
      modifies this
      ensures !addChildValues && indentString == old(indentString) && document == old(document)
      ensures ChildrenOf(entries) && lineLength == LineLength(childValues)
      decreases 1 + SizeOf(entries), 0
    {
      hide Lookup, ToInt, HasChildren, HeldEntries, TotalLength, ChildText, Survives;
      NoLength();
      addChildValues := true;
      lineLength := ToInt(4 + (size - 1) * 2);
      for index := 0 to size
        invariant addChildValues && indentString == old(indentString) && document == old(document)
        invariant childValues == Texts(entries, index, style)
        invariant lineLength == ToInt(4 + (size - 1) * 2 + TotalLength(childValues))
      {
        ghost var before := childValues;
        var v := Lookup(entries, Index(index));
        HeldLookup(entries, Index(index));
        ChildlessSurvives(v);
        var _ := WriteValue(v);
        LineGrows(4 + (size - 1) * 2, before, childValues);
        lineLength := ToInt(lineLength + ToInt(|childValues[index]|));
      }
      addChildValues := false;
    }

    // ----- Objects -----

    method WriteMembers(entries: seq<Entry>) returns (ok: bool)
      requires !addChildValues && Sorted(entries) && HeldEntries(entries, false) && entries != []
      modifies this
      ensures ok == SurvivesAll(entries)
      ensures ok ==> !addChildValues && indentString == old(indentString)
      ensures ok ==> document == Styled(Object(entries), style, old(document), indentString)
      decreases 1 + SizeOf(entries), 2
    {
      var members := MemberNames(entries);
      ObjectIsStyled(entries, style, document, indentString);
      hide *;
      WriteWithIndent("{");
      Indent();
      ok := WriteMemberLines(entries, members);
      if !ok {
        return;
      }
      Unindent(old(indentString));
      WriteWithIndent("}");
    }

    /** The loop over the names. */
    method WriteMemberLines(entries: seq<Entry>, members: seq<string>) returns (ok: bool)
      requires !addChildValues && Sorted(entries) && HeldEntries(entries, false) && entries != []
      requires |members| == |entries| && forall i :: 0 <= i < |members| ==> entries[i].key == Name(members[i])
      modifies this
      ensures ok == SurvivesAll(entries)
      ensures ok ==> !addChildValues && indentString == old(indentString)
      ensures ok ==> document == StyledMembers(entries, |entries|, style, old(document), indentString)
      decreases 1 + SizeOf(entries), 1
    {
      ghost var start := document;
      var it := 0;
      AllSurvive(entries);
      NoMemberYet(entries, style, start, indentString);
      hide *;
      while true
        invariant 0 <= it < |members| && !addChildValues && indentString == old(indentString)
        invariant document == MembersSoFar(entries, it, style, start, indentString)
        invariant forall i :: 0 <= i < it ==> Survives(entries[i].value)
        decreases |members| - it
      {
        ok := WriteMember(entries, it, members[it]);
        if !ok {
          return;
        }
        OneMoreMember(entries, it, style, start, indentString);
        it := it + 1;
        if it == |members| {
          break;
        }
        document := document + ",";
      }
    }

    method WriteMember(entries: seq<Entry>, it: nat, name: string) returns (ok: bool)
      requires !addChildValues && Sorted(entries) && HeldEntries(entries, false)
      requires it < |entries| && entries[it].key == Name(name)
      modifies this
      ensures ok == Survives(entries[it].value)
      ensures ok ==> !addChildValues && indentString == old(indentString)
      ensures ok ==>
                var start := Indented(old(document), indentString) + Quoted(NameOf(entries[it].key)) + " : ";
                document == Styled(entries[it].value, style, start, indentString)
      decreases 1 + SizeOf(entries), 0
    {
      SizeOfOne(entries, it);
      assert HeldEntry(entries[it], false);
      FindsEntry(entries, it);
      hide Held, Quoted, Lookup, Sorted, HeldEntries, HeldEntry, Survives, Indented, Styled;
      var quoted := ValueToQuotedString(Some(name));
      WriteWithIndent(quoted);
      document := document + " : ";
      ok := WriteValue(Lookup(entries, Name(name)));
    }

    // ----- The document -----

    method Write(root: Value) returns (ok: bool, text: string)
      requires Held(root)
      modifies this
      ensures ok == Survives(root)
      ensures ok ==> text == Styled(root, style, "", "") + "\n"
    {
      document, addChildValues, indentString := "", false, "";
      childValues := [];
      hide Survives, Held, Styled;
      ok := WriteValue(root);
      if !ok {
        return false, "";
      }
      document := document + "\n";
      text := document;
    }
  }

  /** What the styled writer writes is read back as the value in its normal form. */
  lemma StyledTextIsRead(f: Settings, v: Value, st: Style, root: Value)
    requires Plain(v) && Survives(v) && !st.dropNulls && st.count == AsUnsigned
    ensures Parse(f, Styled(v, st, "", "") + "\n", root) ==
            if f.strictRoot && !v.Array? && !v.Object? then Fail(Normal(v, st.count), [BadRoot], "")
            else Outcome(true, Normal(v, st.count), [], "")
  {
    var layout := StyledExtends(v, st, "", "");
    assert "" + Text(layout) == Text(layout);
    AnyLayoutIsRead(f, v, st, layout, "\n", root);
    hide Parse, Normal, Styled, Survives, Text, Tokens;
  }

  lemma {:induction false} IntSizesSurvive(v: Value)
    requires IntSizes(v)
    ensures Survives(v)
    decreases Size(v)
  {
    if v.Object? || (v.Array? && ArraySize(v.entries) > 0) {
      forall i | 0 <= i < |v.entries| ensures Survives(v.entries[i].value) {
        SizeOfOne(v.entries, i);
        IntSizesSurvive(v.entries[i].value);
      }
      hide Wide;
    }
  }

  /** The two writers agree: the styled one is not interrupted and its tokens are those of the fast one,
      exactly when no array that they reach has a size that is negative as an int. */
  lemma WritersAgreeIffIntSizes(v: Value, st: Style)
    requires Held(v)
    ensures Survives(v) && ValueTokens(v, st.(count := AsUnsigned)) == ValueTokens(v, st.(count := AsInt)) <==>
            IntSizes(v)
  {
    SameTokensIffIntSizes(v, st);
    if IntSizes(v) {
      IntSizesSurvive(v);
    }
  }

  /** A null at index 2^32 - 11: the size is -10 as an int, not zero and not wide, so that the styled writer is
      interrupted where the fast one writes an empty array. */
  lemma NegativeSizeInterrupts()
    ensures var v := Array([Entry(Index(0xFFFF_FFF5), Null)]);
            Held(v) && IntSize(v.entries) == -10 && ArraySize(v.entries) == 0xFFFF_FFF6 && !Survives(v) && !IntSizes(v)
  {
    var entries := [Entry(Index(0xFFFF_FFF5), Null)];
    assert HeldEntry(entries[0], true);
    assert Extent(entries) == 0xFFFF_FFF6;
  }

  /** A null at index 3 * 10^9 - 1: three times the int wraps to a number beyond the margin, so that the styled
      writer goes on and writes all elements where the fast one writes none. */
  lemma NegativeSizeIsWrittenInFull(st: Style)
    ensures var v := Array([Entry(Index(2_999_999_999), Null)]);
            && Held(v) && IntSize(v.entries) < 0 && Survives(v)
            && ValueTokens(v, st.(count := AsInt)) == ["[", "]"] != ValueTokens(v, st.(count := AsUnsigned))
  {
    var entries := [Entry(Index(2_999_999_999), Null)];
    var v := Array(entries);
    assert HeldEntry(entries[0], true);
    assert Extent(entries) == 3_000_000_000;
    assert IntSize(entries) == -1_294_967_296 && ToInt(IntSize(entries) * 3) == 410_065_408;
    assert Survives(v) && !IntSizes(v);
    assert ValueTokens(v, st.(count := AsInt)) == ["["] + [] + ["]"] == ["[", "]"];
    hide ValueTokens, Survives, IntSizes;
    WritersAgreeIffIntSizes(v, st);
  }
}
