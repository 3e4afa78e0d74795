/**
 * The form's text buffers as the standard string type stores them: UTF-8 bytes, with insertion
 * and removal addressed by byte offset and refused (a panic) at an offset inside a character.
 * The form's cursor, however, moves by one per character typed, so it is a character count used
 * as a byte offset. This module models that as written; `Form` models the evidently intended
 * character-addressed editing, and the two agree whenever the text is ASCII.
 */
module Utf8Cursor {
  import opened Wrappers
  import opened Form

  /** The number of bytes UTF-8 uses for `c`. */
  function Utf8Width(c: char): (w: nat)
    ensures 1 <= w <= 4
    ensures (c as int) < 0x80 <==> w == 1
  {
    if (c as int) < 0x80 then 1
    else if (c as int) < 0x800 then 2
    else if (c as int) < 0x1_0000 then 3
    else 4
  }

  /** The UTF-8 length of `s` in bytes. */
  function ByteLen(s: string): nat {
    if s == [] then 0 else Utf8Width(s[0]) + ByteLen(s[1..])
  }

  predicate IsAscii(s: string) {
    forall i :: 0 <= i < |s| ==> (s[i] as int) < 0x80
  }

  /** ASCII text takes one byte per character. */
  lemma {:induction false} AsciiByteLen(s: string)
    requires IsAscii(s)
    ensures ByteLen(s) == |s|
  {
    if s != [] {
      assert IsAscii(s[1..]) by {
        forall i | 0 <= i < |s[1..]|
          ensures (s[1..][i] as int) < 0x80
        {
          assert s[1..][i] == s[i + 1];
        }
      }
      AsciiByteLen(s[1..]);
    }
  }

  /**
   * The character index whose prefix is exactly `b` bytes long, if `b` is a character boundary
   * of `s`; `None` when `b` falls inside a character or beyond the end.
   */
  function CharIndexAt(s: string, b: nat): (r: Option<nat>)
    ensures r.Some? ==> r.value <= |s| && ByteLen(s[..r.value]) == b
    ensures r.None? ==> forall k :: 0 <= k <= |s| ==> ByteLen(s[..k]) != b
  {
    if b == 0 then
      assert s[..0] == [];
      Some(0)
    else if s == [] then None
    else if b < Utf8Width(s[0]) then
      assert forall k :: 1 <= k <= |s| ==> s[..k][0] == s[0] && s[..k][1..] == s[1..][..k - 1];
      None
    else
      var rest := CharIndexAt(s[1..], b - Utf8Width(s[0]));
      assert forall k :: 1 <= k <= |s| ==> s[..k][0] == s[0] && s[..k][1..] == s[1..][..k - 1];
      match rest
      case None => None
      case Some(k) => Some(k + 1)
  }

  /** In ASCII text every offset up to the length is a boundary, at the same index. */
  lemma AsciiCharIndex(s: string, b: nat)
    requires IsAscii(s) && b <= |s|
    ensures CharIndexAt(s, b) == Some(b)
  {
    assert IsAscii(s[..b]);
    AsciiByteLen(s[..b]);
    var r := CharIndexAt(s, b);
    if r.Some? {
      var k := r.value;
      assert IsAscii(s[..k]);
      AsciiByteLen(s[..k]);
    }
  }

  /**
   * Typing a character as written: the character goes in at byte offset `cursor` of the active
   * text, and the cursor moves on by one. `None` is the panic when `cursor` is not a character
   * boundary of the active text.
   */
  function InsertCharAsWritten(f: FormValue, c: char): (r: Option<FormValue>)
    ensures r.None? <==> forall k :: 0 <= k <= |f.ActiveText()| ==> ByteLen(f.ActiveText()[..k]) != f.cursor
    ensures r.Some? ==> r.value.active == f.active && r.value.cursor == f.cursor + 1
    ensures r.Some? ==> r.value.InactiveText() == f.InactiveText()
    ensures r.Some? ==> |r.value.ActiveText()| == |f.ActiveText()| + 1
    ensures r.Some? ==> var k := CharIndexAt(f.ActiveText(), f.cursor);
                        k.Some? && r.value.ActiveText() == f.ActiveText()[..k.value] + [c] + f.ActiveText()[k.value..]
  {
    match CharIndexAt(f.ActiveText(), f.cursor)
    case None => None
    case Some(k) =>
      var t := f.ActiveText()[..k] + [c] + f.ActiveText()[k..];
      match f.active
      case Name => Some(f.(name := t, cursor := f.cursor + 1))
      case DueDate => Some(f.(dueDate := t, cursor := f.cursor + 1))
  }

  /** On ASCII text the code as written and the character-addressed form agree. */
  lemma AsciiInsertAgrees(f: FormValue, c: char)
    requires f.Valid() && IsAscii(f.ActiveText())
    ensures InsertCharAsWritten(f, c) == Some(f.InsertChar(c))
  {
    AsciiCharIndex(f.ActiveText(), f.cursor);
  }

  /**
   * Typing a two-byte character into the empty form and then any character panics: after the
   * first keystroke the cursor is 1, which is inside the two bytes of the first character.
   */
  lemma TypingAfterAccentPanics(c: char)
    ensures InsertCharAsWritten(EmptyForm, '\U{E9}').Some?
    ensures var f := InsertCharAsWritten(EmptyForm, '\U{E9}').value;
            f.name == ['\U{E9}'] && f.cursor == 1 && InsertCharAsWritten(f, c).None?
  {
    var f := InsertCharAsWritten(EmptyForm, '\U{E9}').value;
    assert f.name == ['\U{E9}'];
    assert ByteLen(f.name[..0]) == 0;
    assert f.name[..1] == f.name;
    assert ByteLen(f.name[..1]) == 2;
  }

  /** The character-addressed form has no such failure: both keystrokes go in. */
  lemma TypingAfterAccentIntended(c: char)
    ensures EmptyForm.InsertChar('\U{E9}').InsertChar(c).name == ['\U{E9}', c]
  {
    var f := EmptyForm.InsertChar('\U{E9}');
    assert f.name == ['\U{E9}'];
  }
}
