/**
 * debug_struct_name: keeps the type name at the front of a value's Debug
 * text by cutting the text at its first opening brace or parenthesis.
 */
module DebugName {
  import opened Wrappers

  predicate IsBracket(c: char) {
    c == '{' || c == '('
  }

  /**
   * The position of the first bracket, counted in characters, if any. The
   * source's `str::find` reports the same position as a UTF-8 byte offset:
   * that is `BracketOffset` below.
   */
  function FindBracket(s: string): (r: Option<nat>)
    ensures r.Some? ==> r.value < |s| && IsBracket(s[r.value])
    ensures r.Some? ==> forall k :: 0 <= k < r.value ==> !IsBracket(s[k])
    ensures r.None? <==> forall k :: 0 <= k < |s| ==> !IsBracket(s[k])
  {
    if |s| == 0 then None
    else if IsBracket(s[0]) then Some(0)
    else match FindBracket(s[1..]) {
      case None => None
      case Some(i) => Some(i + 1)
    }
  }

  /** The number of bytes UTF-8 spends on one Unicode scalar value. */
  function Utf8Width(c: char): (w: nat)
    ensures 1 <= w <= 4
    ensures c as int < 0x80 <==> w == 1
  {
    if c as int < 0x80 then 1
    else if c as int < 0x800 then 2
    else if c as int < 0x1_0000 then 3
    else 4
  }

  /** The length in bytes of the UTF-8 encoding of `s`. */
  function Utf8Length(s: string): (n: nat)
    ensures |s| <= n <= 4 * |s|
  {
    if |s| == 0 then 0 else Utf8Width(s[0]) + Utf8Length(s[1..])
  }

  /**
   * `str::find` with the bracket test: the byte offset of the first
   * bracket, which is the UTF-8 length of the text in front of it.
   */
  function BracketOffset(s: string): (r: Option<nat>)
    ensures r.None? <==> FindBracket(s).None?
    ensures r.Some? ==> r.value == Utf8Length(s[..FindBracket(s).value])
    ensures r.Some? ==> r.value <= Utf8Length(s)
  {
    if |s| == 0 then None
    else if IsBracket(s[0]) then Some(0)
    else match BracketOffset(s[1..]) {
      case None => None
      case Some(b) =>
        assert s[..FindBracket(s).value][1..] == s[1..][..FindBracket(s[1..]).value];
        Utf8LengthPrefix(s, FindBracket(s).value);
        Some(Utf8Width(s[0]) + b)
    }
  }

  /** A prefix takes no more bytes than the whole text. */
  lemma {:induction false} Utf8LengthPrefix(s: string, k: nat)
    requires k <= |s|
    ensures Utf8Length(s[..k]) <= Utf8Length(s)
  {
    if k > 0 {
      assert s[..k][1..] == s[1..][..k - 1];
      Utf8LengthPrefix(s[1..], k - 1);
    }
  }

  /**
   * The text up to, not including, its first bracket; the whole text when
   * it holds no bracket. The source cuts with `split_at` at the byte offset
   * `BracketOffset`; the model cuts at the character position, and
   * `CutAtOffset` shows the two name the same prefix.
   */
  function DebugStructName(s: string): (r: string)
    ensures r <= s
    ensures forall k :: 0 <= k < |r| ==> !IsBracket(r[k])
    ensures |r| < |s| ==> IsBracket(s[|r|])
  {
    match FindBracket(s) {
      case Some(index) => s[..index]
      case None => s
    }
  }

  /** `split_at` at the byte offset keeps exactly the bytes of the cut name. */
  lemma CutAtOffset(s: string)
    ensures BracketOffset(s).Some? ==> Utf8Length(DebugStructName(s)) == BracketOffset(s).value
    ensures BracketOffset(s).None? ==> DebugStructName(s) == s
  {
  }

  /**
   * With non-ASCII text in front of the bracket the byte offset and the
   * character position differ: "Ünïcode(x)" has its bracket at character 7
   * and byte 9, and both cut off "Ünïcode".
   */
  lemma UnicodeOffsetExample()
    ensures FindBracket("\U{DC}n\U{EF}code(x)") == Some(7)
    ensures BracketOffset("\U{DC}n\U{EF}code(x)") == Some(9)
    ensures DebugStructName("\U{DC}n\U{EF}code(x)") == "\U{DC}n\U{EF}code"
  {
    var name, rest := "\U{DC}n\U{EF}code", "(x)";
    NameIgnoresFields(name, rest);
    assert name + rest == "\U{DC}n\U{EF}code(x)";
    assert Utf8Length(name) == 9;
  }

  /** Text without brackets comes back unchanged. */
  lemma NoBracketKept(s: string)
    requires forall k :: 0 <= k < |s| ==> !IsBracket(s[k])
    ensures DebugStructName(s) == s
  {
    assert FindBracket(s).None?;
  }

  /** Cutting twice is cutting once. */
  lemma Idempotent(s: string)
    ensures DebugStructName(DebugStructName(s)) == DebugStructName(s)
  {
    NoBracketKept(DebugStructName(s));
  }

  /** Whatever follows the name does not change it. */
  lemma NameIgnoresFields(name: string, rest: string)
    requires forall k :: 0 <= k < |name| ==> !IsBracket(name[k])
    requires |rest| > 0 && IsBracket(rest[0])
    ensures DebugStructName(name + rest) == name
  {
    var s := name + rest;
    assert IsBracket(s[|name|]);
    forall k | 0 <= k < |name|
      ensures !IsBracket(s[k])
    {
      assert s[k] == name[k];
    }
  }

  /** A tuple struct's Debug text loses its parenthesised fields. */
  lemma TupleStructExample()
    ensures DebugStructName("AGreatTuple(0.0)") == "AGreatTuple"
  {
    NameIgnoresFields("AGreatTuple", "(0.0)");
    assert "AGreatTuple" + "(0.0)" == "AGreatTuple(0.0)";
  }

  /**
   * A braced struct's Debug text keeps the space that precedes the brace:
   * the cut is at the brace itself.
   */
  lemma BracedStructExample()
    ensures DebugStructName("AnAwesomeStruct { v: 0.0 }") == "AnAwesomeStruct "
  {
    NameIgnoresFields("AnAwesomeStruct ", "{ v: 0.0 }");
    assert "AnAwesomeStruct " + "{ v: 0.0 }" == "AnAwesomeStruct { v: 0.0 }";
  }
}
