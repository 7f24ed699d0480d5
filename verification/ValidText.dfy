/** Text with an unpaired surrogate has no UTF-8 form (client/text_encoding.cpp), and printing repairs
    nothing: a message fits a frame only if every text in it is valid. */
module ValidText {
  import opened WideText
  import opened Protocol
  import opened KeyOrder
  import opened JsonPrinter

  lemma {:induction false} ValidTextEndsWhole(t: Text)
    requires Utf8Size(t).Some? && t != []
    ensures !IsHighSurrogate(t[|t| - 1])
  {
    var next := if IsHighSurrogate(t[0]) then 2 else 1;
    if |t| > next {
      ValidTextEndsWhole(t[next..]);
    }
  }

  /** Escaping repairs nothing. */
  lemma {:induction false} EscapedIsValid(t: Text)
    requires Utf8Size(Escape(t)).Some?
    ensures Utf8Size(t).Some?
  {
    if t != [] {
      var rest := Escape(t[1..]);
      if IsHighSurrogate(t[0]) {
        assert Escape(t)[1..] == rest;
        assert rest[0] == Escape(t)[1];
        assert t[1..][0] == t[1] && EscapeUnit(t[1]) == [t[1]];
        assert t[1..][1..] == t[2..];
        assert Escape(t)[2..] == Escape(t[2..]);
        EscapedIsValid(t[2..]);
      } else {
        assert !IsLowSurrogate(t[0]);
        var unit := EscapeUnit(t[0]);
        if |unit| == 2 {
          assert Escape(t)[1..] == [unit[1]] + rest;
          assert Escape(t)[1..][1..] == rest;
        } else {
          assert Escape(t)[1..] == rest;
        }
        EscapedIsValid(t[1..]);
      }
    }
  }

  /** Text between two plain units is valid when the whole is. */
  lemma MiddleIsValid(a: Text, t: Text, b: Text)
    requires a != [] && a[|a| - 1] < 0x80 && b != [] && b[0] < 0x80
    requires Utf8Size(a + t + b).Some?
    ensures Utf8Size(t).Some?
  {
    Utf8SizeSplit(a + t, b);
    Utf8SizeSplit(a, t);
  }

  lemma Regroup(header: Text, before: Text, key: Text, value: Text, after: Text, numbers: Text)
    ensures header + (before + (key + [QUOTE] + value + [QUOTE]) + after) + numbers + [CLOSE_BRACE]
         == (header + before + key + [QUOTE]) + value + ([QUOTE] + after + numbers + [CLOSE_BRACE])
  {
  }

  function FieldStart(key: Text): Text {
    [COMMA] + Quoted(key) + [COLON]
  }

  /** A field stands somewhere among the printed ones. */
  lemma {:induction false} FieldStands(keys: set<Text>, strings: map<Text, Text>, key: Text) returns (before: Text, after: Text)
    requires keys <= strings.Keys && key in keys && !IsCommonField(key)
    ensures StringFields(SortedKeys(keys), strings)
         == before + (FieldStart(key) + [QUOTE] + Escape(strings[key]) + [QUOTE]) + after
    decreases |keys|
  {
    hide StringFields, Escape, IsCommonField, SortedKeys;
    var least := Least(keys);
    StringFieldsStep(keys, strings, least);
    if least == key {
      before, after := [], StringFields(SortedKeys(keys - {key}), strings);
    } else {
      var field := if IsCommonField(least) then [] else [COMMA] + StringField(least, strings[least]);
      var more;
      more, after := FieldStands(keys - {least}, strings, key);
      before := field + more;
    }
  }

  /** No half of a surrogate pair goes over the wire. */
  lemma FieldNeedsValidText(m: Message, key: Text)
    requires key in m.strings && !IsCommonField(key) && Fits(m)
    ensures Utf8Size(m.strings[key]).Some?
  {
    hide StringField, StringFields, NumberFields, SortedKeys, Escape, Utf8Size, FieldStart, IsCommonField;
    var header := [OPEN_BRACE] + StringField(TYPE, MessageTypeToString(m.kind))
      + [COMMA] + StringField(SESSION, m.session) + [COMMA] + StringField(CLIENT, m.client);
    var numbers := NumberFields(SortedKeys(m.numbers.Keys), m.numbers);
    var before, after := FieldStands(m.strings.Keys, m.strings, key);
    Regroup(header, before, FieldStart(key), Escape(m.strings[key]), after, numbers);
    MiddleIsValid(header + before + FieldStart(key) + [QUOTE], Escape(m.strings[key]), [QUOTE] + after + numbers + [CLOSE_BRACE]);
    EscapedIsValid(m.strings[key]);
  }
}
