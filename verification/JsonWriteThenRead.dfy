/** The writers and the reader of lib/json/jsoncpp.cpp one after the other, on the objects. */
module JsonWriteThenRead {
  import opened JsonValue
  import opened JsonText
  import opened JsonParser
  import opened JsonRoundTrip
  import opened JsonSizes
  import opened JsonFastWriter
  import opened JsonStyledText
  import opened JsonStyledWriter
  import opened JsonReader

  /** A strict reader refuses scalars alone. */
  predicate Admits(f: Settings, v: Value) {
    !f.strictRoot || v.Array? || v.Object?
  }

  method FastWriteThenRead(v: Value, st: Style, yaml: bool, omitEndingLineFeed: bool, f: Settings, root: Value)
    returns (ok: bool, value: Value)
    requires Plain(v) && !st.dropNulls && st.Sane() && st.count == AsInt
    ensures ok <==> Admits(f, v)
    ensures value == Normal(v, AsInt)
    ensures value == Normal(v, InFull) <==> SizesFit(v, AsInt)
  {
    var writer := new FastWriter(yaml, omitEndingLineFeed, st);
    var text := writer.Write(v);
    var reader := new Reader(f);
    ok, value := reader.Parse(text, root);
    FastTextIsRead(f, v, st, yaml, if omitEndingLineFeed then "" else "\n", root);
    AllIsWrittenIffSizesFit(v, AsInt);
    hide Parse, Compact, ValueTokens, Normal, SizesFit, Plain;
  }

  method StyledWriteThenRead(v: Value, st: Style, f: Settings, root: Value)
    returns (written: bool, ok: bool, value: Value)
    requires Plain(v) && !st.dropNulls && st.count == AsUnsigned
    ensures written <==> Survives(v)
    ensures written ==> (ok <==> Admits(f, v))
    ensures written ==> value == Normal(v, AsUnsigned)
    ensures written ==> (value == Normal(v, InFull) <==> SizesFit(v, AsUnsigned))
    ensures IntSizes(v) ==> written && value == Normal(v, AsInt)
  {
    var writer := new StyledWriter(st);
    var text;
    written, text := writer.Write(v);
    if !written {
      if IntSizes(v) {
        IntSizesSurvive(v);
      }
      return false, false, Null;
    }
    var reader := new Reader(f);
    ok, value := reader.Parse(text, root);
    StyledTextIsRead(f, v, st, root);
    AllIsWrittenIffSizesFit(v, AsUnsigned);
    if IntSizes(v) {
      SameReading(v, st, f, root);
    }
    hide Parse, Styled, ValueTokens, Normal, SizesFit, Plain, Survives, IntSizes;
  }

  /** The two writers' texts are read as the same value when they have the same tokens. */
  lemma SameReading(v: Value, st: Style, f: Settings, root: Value)
    requires Plain(v) && !st.dropNulls && IntSizes(v)
    ensures Normal(v, AsUnsigned) == Normal(v, AsInt)
  {
    var a, b := st.(count := AsUnsigned), st.(count := AsInt);
    SameTokensIffIntSizes(v, st);
    FastTextIsRead(f, v, a, false, "", root);
    FastTextIsRead(f, v, b, false, "", root);
    hide Parse, Compact, ValueTokens, Normal, Plain, IntSizes;
  }
}
