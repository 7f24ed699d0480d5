/** Text as the editor, the wire and the block editor hold it: sequences of UTF-16 code units. */
module WideText {

  newtype Unit = u: int | 0 <= u < 0x1_0000

  type Text = seq<Unit>

  datatype Option<+T> = None | Some(value: T)

  predicate IsHighSurrogate(u: Unit) {
    0xD800 <= u < 0xDC00
  }

  predicate IsLowSurrogate(u: Unit) {
    0xDC00 <= u < 0xE000
  }

  /** Bytes one code unit outside the surrogate range takes in UTF-8. */
  function UnitCost(u: Unit): nat {
    if u < 0x80 then 1 else if u < 0x800 then 2 else 3
  }

  /** Length of the UTF-8 form, or None for text with an unpaired surrogate,
      which the strict conversion refuses. */
  function Utf8Size(t: Text): Option<nat> {
    if t == [] then
      Some(0)
    else if IsHighSurrogate(t[0]) then
      if |t| > 1 && IsLowSurrogate(t[1]) then
        var rest := Utf8Size(t[2..]);
        if rest.Some? then Some(4 + rest.value) else None
      else
        None
    else if IsLowSurrogate(t[0]) then
      None
    else
      var rest := Utf8Size(t[1..]);
      if rest.Some? then Some(UnitCost(t[0]) + rest.value) else None
  }

  /** Text free of unpaired surrogates can be cut anywhere except inside a pair. */
  predicate CleanCut(a: Text, b: Text) {
    !(a != [] && b != [] && IsHighSurrogate(a[|a| - 1]) && IsLowSurrogate(b[0]))
  }

  lemma {:induction false} Utf8SizeBound(t: Text)
    ensures Utf8Size(t).Some? ==> Utf8Size(t).value <= 3 * |t|
  {
    if t == [] {
    } else if IsHighSurrogate(t[0]) {
      if |t| > 1 {
        Utf8SizeBound(t[2..]);
      }
    } else {
      Utf8SizeBound(t[1..]);
    }
  }

  lemma DropFromConcat(a: Text, b: Text, n: nat)
    requires n <= |a|
    ensures (a + b)[n..] == a[n..] + b
  {
  }

  /** Sizes add up over concatenation. */
  lemma {:induction false} Utf8SizeConcat(a: Text, b: Text)
    requires Utf8Size(a).Some? && Utf8Size(b).Some?
    ensures Utf8Size(a + b) == Some(Utf8Size(a).value + Utf8Size(b).value)
  {
    if a == [] {
      assert a + b == b;
    } else if IsHighSurrogate(a[0]) {
      Utf8SizeConcat(a[2..], b);
      DropFromConcat(a, b, 2);
    } else {
      Utf8SizeConcat(a[1..], b);
      DropFromConcat(a, b, 1);
    }
  }

  /** Cutting valid text outside a surrogate pair leaves two valid texts. */
  lemma {:induction false} Utf8SizeSplit(a: Text, b: Text)
    requires Utf8Size(a + b).Some? && CleanCut(a, b)
    ensures Utf8Size(a).Some? && Utf8Size(b).Some?
  {
    if a == [] {
      assert a + b == b;
    } else {
      var next := if IsHighSurrogate(a[0]) && |a| > 1 then 2 else 1;
      DropFromConcat(a, b, next);
      assert (a + b)[0] == a[0];
      if IsHighSurrogate(a[0]) ==> |a| > 1 {
        Utf8SizeSplit(a[next..], b);
      }
    }
  }
}
