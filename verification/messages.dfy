/** The `messages.properties` reader: `\uXXXX` unescaping, the line format
    (`key=value`, `#` comments) and lookup with the `!key!` fallback.
    Opening the file and the process-wide cache are not modelled: the
    file's lines are the input. */
module Messages {
  import opened Basics

  /* ---------------------------------------------------------------------
     Whitespace and trimming (Rust `char::is_whitespace`, `str::trim`)
     --------------------------------------------------------------------- */

  /** The Unicode White_Space property, which `char::is_whitespace` tests. */
  predicate IsWhitespace(c: char)
  {
    || ('\t' <= c <= '\r')
    || c == ' '
    || c == '\U{0085}'
    || c == '\U{00A0}'
    || c == '\U{1680}'
    || ('\U{2000}' <= c <= '\U{200A}')
    || c == '\U{2028}'
    || c == '\U{2029}'
    || c == '\U{202F}'
    || c == '\U{205F}'
    || c == '\U{3000}'
  }

  function TrimStart(s: string): (r: string)
    ensures |r| <= |s| && r == s[|s| - |r|..]
    ensures |r| == 0 || !IsWhitespace(r[0])
    ensures forall i :: 0 <= i < |s| - |r| ==> IsWhitespace(s[i])
  {
    if |s| == 0 || !IsWhitespace(s[0]) then s else TrimStart(s[1..])
  }

  function TrimEnd(s: string): (r: string)
    ensures |r| <= |s| && r == s[..|r|]
    ensures |r| == 0 || !IsWhitespace(r[|r| - 1])
    ensures forall i :: |r| <= i < |s| ==> IsWhitespace(s[i])
  {
    if |s| == 0 || !IsWhitespace(s[|s| - 1]) then s else TrimEnd(s[..|s| - 1])
  }

  /** `str::trim`: the longest infix with no whitespace at either end. */
  function Trim(s: string): string
  {
    TrimEnd(TrimStart(s))
  }

  /* ---------------------------------------------------------------------
     `\uXXXX` escapes
     --------------------------------------------------------------------- */

  /** `char::to_digit(16)`. */
  function HexDigit(c: char): Option<nat>
  {
    if '0' <= c <= '9' then Some(c as int - '0' as int)
    else if 'a' <= c <= 'f' then Some(c as int - 'a' as int + 10)
    else if 'A' <= c <= 'F' then Some(c as int - 'A' as int + 10)
    else None
  }

  /** The value of a string of hex digits, most significant first. */
  function HexValue(h: string): Option<nat>
  {
    if |h| == 0 then Some(0)
    else match (HexValue(h[..|h| - 1]), HexDigit(h[|h| - 1]))
      case (Some(v), Some(d)) => Some(v * 16 + d)
      case _ => None
  }

  /** `u16::from_str_radix(h, 16)`: an optional leading `+`, then at least
      one hex digit, and a value that fits in 16 bits. */
  function ParseU16Hex(h: string): (r: Option<nat>)
    ensures r.Some? ==> r.value < 0x1_0000
  {
    if |h| == 0 || h == "+" then None
    else
      var digits := if h[0] == '+' then h[1..] else h;
      match HexValue(digits)
      case Some(v) => if v <= 0xFFFF then Some(v) else None
      case None => None
  }

  predicate IsSurrogate(v: int)
  {
    0xD800 <= v <= 0xDFFF
  }

  /** The char an escape's hex part stands for: it must parse as a `u16`
      and be a Unicode scalar value (`char::from_u32`). */
  function DecodeHex(hex: string): (r: Option<char>)
    ensures r.Some? <==> ParseU16Hex(hex).Some? && !IsSurrogate(ParseU16Hex(hex).value)
    ensures r.Some? ==> r.value as int == ParseU16Hex(hex).value
  {
    match ParseU16Hex(hex)
    case Some(v) => if IsSurrogate(v) then None else Some(v as char)
    case None => None
  }

  /** Decodes `\uXXXX` escapes.  A backslash followed by `u` consumes the `u`
      and up to four more chars; when these do not decode, only the backslash
      is kept and the consumed chars are lost. */
  function ParseUnicodeEscapes(s: string): (r: string)
    ensures |r| <= |s|
    decreases |s|
  {
    if |s| == 0 then []
    else if s[0] == '\\' && |s| >= 2 && s[1] == 'u' then
      var n := Min(4, |s| - 2);
      var hex := s[2..2 + n];
      var rest := s[2 + n..];
      match DecodeHex(hex)
      case Some(ch) => [ch] + ParseUnicodeEscapes(rest)
      case None => ['\\'] + ParseUnicodeEscapes(rest)
    else [s[0]] + ParseUnicodeEscapes(s[1..])
  }

  /** Text with no backslash passes through unchanged. */
  lemma {:induction false} NoBackslashIsIdentity(s: string)
    requires '\\' !in s
    ensures ParseUnicodeEscapes(s) == s
    decreases |s|
  {
    if |s| > 0 {
      assert '\\' !in s[1..] by {
        forall i | 0 <= i < |s[1..]| ensures s[1..][i] != '\\' {
          assert s[1..][i] == s[i + 1];
        }
      }
      NoBackslashIsIdentity(s[1..]);
    }
  }

  /** A backslash not followed by `u` is kept, and the next char is read as usual. */
  lemma LoneBackslashKept(s: string)
    requires |s| >= 2 && s[0] == '\\' && s[1] != 'u'
    ensures ParseUnicodeEscapes(s) == ['\\'] + ParseUnicodeEscapes(s[1..])
  {
  }

  /** A backslash, `u` and four chars that decode become that one char. */
  lemma EscapeDecoded(hex: string, rest: string)
    requires |hex| == 4 && DecodeHex(hex).Some?
    ensures ParseUnicodeEscapes("\\u" + hex + rest)
         == [DecodeHex(hex).value] + ParseUnicodeEscapes(rest)
  {
    var s := "\\u" + hex + rest;
    assert s[2..6] == hex && s[6..] == rest;
  }

  /** When the chars after `\u` do not decode, only `\` is emitted: the `u`
      and the (up to four) consumed chars are dropped. */
  lemma FailedEscapeDropsChars(s: string)
    requires |s| >= 2 && s[0] == '\\' && s[1] == 'u'
    requires DecodeHex(s[2..2 + Min(4, |s| - 2)]).None?
    ensures ParseUnicodeEscapes(s) == ['\\'] + ParseUnicodeEscapes(s[2 + Min(4, |s| - 2)..])
  {
  }

  /* An escaper, the partner of the decoder: a char of the Basic
     Multilingual Plane written as `\uXXXX` with upper-case digits. */

  function HexChar(d: nat): (c: char)
    requires d < 16
    ensures HexDigit(c) == Some(d)
  {
    if d < 10 then ('0' as int + d) as char else ('A' as int + d - 10) as char
  }

  function Escape(c: char): (r: string)
    requires (c as int) < 0x1_0000
    ensures |r| == 6 && r[0] == '\\' && r[1] == 'u'
  {
    var v := c as int;
    "\\u" + [HexChar(v / 0x1000), HexChar(v / 0x100 % 16), HexChar(v / 0x10 % 16), HexChar(v % 16)]
  }

  predicate InBmp(s: string)
  {
    forall i :: 0 <= i < |s| ==> (s[i] as int) < 0x1_0000
  }

  function EscapeAll(s: string): (r: string)
    requires InBmp(s)
    ensures |r| == 6 * |s|
  {
    if |s| == 0 then [] else Escape(s[0]) + EscapeAll(s[1..])
  }

  lemma HexOfEscape(c: char)
    requires (c as int) < 0x1_0000
    ensures DecodeHex(Escape(c)[2..]) == Some(c)
  {
    var v := c as int;
    var h := Escape(c)[2..];
    var a, b, d, e := v / 0x1000, v / 0x100 % 16, v / 0x10 % 16, v % 16;
    assert h == [HexChar(a), HexChar(b), HexChar(d), HexChar(e)];
    assert HexValue(h) == Some(v) by {
      HexValueOfFour(a, b, d, e);
      DigitsOfValue(v);
    }
    assert h[0] != '+' && h != "+";
    assert ParseU16Hex(h) == Some(v);
  }

  /** The value of four hex digits. */
  lemma HexValueOfFour(a: nat, b: nat, d: nat, e: nat)
    requires a < 16 && b < 16 && d < 16 && e < 16
    ensures HexValue([HexChar(a), HexChar(b), HexChar(d), HexChar(e)]) == Some(((a * 16 + b) * 16 + d) * 16 + e)
  {
    var h := [HexChar(a), HexChar(b), HexChar(d), HexChar(e)];
    assert HexValue(h[..1]) == Some(a) by {
      assert h[..1][..0] == [];
    }
    assert HexValue(h[..2]) == Some(a * 16 + b) by {
      assert h[..2][..1] == h[..1];
    }
    assert HexValue(h[..3]) == Some((a * 16 + b) * 16 + d) by {
      assert h[..3][..2] == h[..2];
    }
    assert h[..4] == h;
  }

  lemma DigitsOfValue(v: nat)
    requires v < 0x1_0000
    ensures ((v / 0x1000 * 16 + v / 0x100 % 16) * 16 + v / 0x10 % 16) * 16 + v % 16 == v
  {
    assert v / 0x100 == v / 0x1000 * 16 + v / 0x100 % 16;
    assert v / 0x10 == v / 0x100 * 16 + v / 0x10 % 16;
    assert v == v / 0x10 * 16 + v % 16;
  }

  /** Round trip: decoding escaped text gives the text back. */
  lemma {:induction false} UnescapeEscapeAll(s: string)
    requires InBmp(s)
    ensures ParseUnicodeEscapes(EscapeAll(s)) == s
    decreases |s|
  {
    if |s| > 0 {
      var e := Escape(s[0]);
      HexOfEscape(s[0]);
      assert InBmp(s[1..]) by {
        forall i | 0 <= i < |s[1..]| ensures (s[1..][i] as int) < 0x1_0000 {
          assert s[1..][i] == s[i + 1];
        }
      }
      UnescapeEscapeAll(s[1..]);
      var t := EscapeAll(s);
      assert t == e + EscapeAll(s[1..]);
      assert t[2..6] == e[2..] && t[6..] == EscapeAll(s[1..]);
    }
  }

  /* ---------------------------------------------------------------------
     Line format and lookup
     --------------------------------------------------------------------- */

  datatype Entry = Entry(key: string, value: string)

  /** One line of the file: trimmed; blank lines and `#` comments are
      skipped; otherwise split at the first `=`, and a line without `=` is
      ignored.  Key and value are not trimmed separately. */
  function ParseLine(line: string): (r: Option<Entry>)
    ensures var t := Trim(line); r.None? <==> |t| == 0 || t[0] == '#' || '=' !in t
  {
    var t := Trim(line);
    if |t| == 0 || t[0] == '#' then None
    else match IndexOf(t, '=')
      case None => None
      case Some(i) => Some(Entry(t[..i], ParseUnicodeEscapes(t[i + 1..])))
  }

  /** An entry comes from a non-blank, non-comment line: its key is the
      text before the line's first `=`, its value the unescaped rest; a
      line yields nothing only when it is blank, a comment or has no `=`. */
  lemma ParseLineMeaning(line: string)
    ensures var t := Trim(line); var r := ParseLine(line);
      r.Some? ==> && |t| > 0 && t[0] != '#'
                  && |r.value.key| < |t| && t[..|r.value.key|] == r.value.key
                  && t[|r.value.key|] == '=' && '=' !in r.value.key
                  && r.value.value == ParseUnicodeEscapes(t[|r.value.key| + 1..])
    ensures var t := Trim(line); ParseLine(line).None? ==> |t| == 0 || t[0] == '#' || '=' !in t
  {
    var t := Trim(line);
    if |t| > 0 && t[0] != '#' && IndexOf(t, '=').Some? {
      var i := IndexOf(t, '=').value;
      var key := t[..i];
      assert ParseLine(line) == Some(Entry(key, ParseUnicodeEscapes(t[i + 1..])));
      assert |key| == i < |t| && t[..|key|] == key && t[|key|] == '=';
      assert '=' !in key by {
        NoneBeforeFirst(t, '=', i);
      }
    }
  }

  /** Nothing before the first occurrence is an occurrence. */
  lemma NoneBeforeFirst(s: string, c: char, i: nat)
    requires IndexOf(s, c) == Some(i)
    ensures c !in s[..i]
  {
    forall j | 0 <= j < i ensures s[..i][j] != c { assert s[..i][j] == s[j]; }
  }

  /** The entries of the file's lines, one per line. */
  function Entries(lines: seq<string>): (r: seq<Option<Entry>>)
    ensures |r| == |lines| && forall i :: 0 <= i < |lines| ==> r[i] == ParseLine(lines[i])
  {
    seq(|lines|, i requires 0 <= i < |lines| => ParseLine(lines[i]))
  }

  /** Inserts the entries in order: a later entry with the same key
      replaces an earlier one. */
  function Table(es: seq<Option<Entry>>): map<string, string>
  {
    if |es| == 0 then map[]
    else
      var m := Table(es[..|es| - 1]);
      match es[|es| - 1]
      case None => m
      case Some(e) => m[e.key := e.value]
  }

  /** The key/value table read from the file's lines. */
  function ParseLines(lines: seq<string>): (m: map<string, string>)
    ensures forall key :: key in m ==> exists i :: 0 <= i < |lines| && ParseLine(lines[i]) == Some(Entry(key, m[key]))
  {
    var es := Entries(lines);
    forall key | key in Table(es)
      ensures exists i :: 0 <= i < |lines| && ParseLine(lines[i]) == Some(Entry(key, Table(es)[key]))
    {
      TableValue(es, key);
    }
    Table(es)
  }

  predicate Defines(line: string, key: string)
  {
    ParseLine(line).Some? && ParseLine(line).value.key == key
  }

  predicate HasKey(o: Option<Entry>, key: string)
  {
    o.Some? && o.value.key == key
  }

  lemma {:induction false} TableKeys(es: seq<Option<Entry>>, key: string)
    ensures key in Table(es) <==> exists i :: 0 <= i < |es| && HasKey(es[i], key)
    decreases |es|
  {
    if |es| > 0 {
      var init := es[..|es| - 1];
      TableKeys(init, key);
      if !HasKey(es[|es| - 1], key) {
        assert key in Table(es) <==> key in Table(init);
        if key in Table(init) {
          var i :| 0 <= i < |init| && HasKey(init[i], key);
          assert es[i] == init[i];
        }
        if exists i :: 0 <= i < |es| && HasKey(es[i], key) {
          var i :| 0 <= i < |es| && HasKey(es[i], key);
          assert init[i] == es[i];
        }
      }
    }
  }

  /** A stored value is the value of some entry with its key. */
  lemma {:induction false} TableValue(es: seq<Option<Entry>>, key: string)
    requires key in Table(es)
    ensures exists i :: 0 <= i < |es| && es[i] == Some(Entry(key, Table(es)[key]))
    decreases |es|
  {
    var init := es[..|es| - 1];
    if HasKey(es[|es| - 1], key) {
      assert es[|es| - 1] == Some(Entry(key, Table(es)[key]));
    } else {
      TableValue(init, key);
      var i :| 0 <= i < |init| && init[i] == Some(Entry(key, Table(init)[key]));
      assert es[i] == init[i];
    }
  }

  lemma {:induction false} TableLastWins(es: seq<Option<Entry>>, i: nat)
    requires i < |es| && es[i].Some?
    requires forall j :: i < j < |es| ==> !HasKey(es[j], es[i].value.key)
    ensures es[i].value.key in Table(es) && Table(es)[es[i].value.key] == es[i].value.value
    decreases |es|
  {
    var e := es[i].value;
    var init := es[..|es| - 1];
    if i < |es| - 1 {
      assert init[i] == es[i];
      assert forall j :: i < j < |init| ==> init[j] == es[j];
      TableLastWins(init, i);
    }
  }

  /** The table holds exactly the keys that some well-formed line defines. */
  lemma ParseLinesKeys(lines: seq<string>, key: string)
    ensures key in ParseLines(lines) <==> exists i :: 0 <= i < |lines| && Defines(lines[i], key)
  {
    var es := Entries(lines);
    TableKeys(es, key);
    assert forall i :: 0 <= i < |lines| ==> (HasKey(es[i], key) <==> Defines(lines[i], key));
  }

  /** The value stored for a key comes from the LAST line that defines it. */
  lemma LastDefinitionWins(lines: seq<string>, i: nat)
    requires i < |lines| && ParseLine(lines[i]).Some?
    requires forall j :: i < j < |lines| ==> !Defines(lines[j], ParseLine(lines[i]).value.key)
    ensures ParseLine(lines[i]).value.key in ParseLines(lines)
    ensures ParseLines(lines)[ParseLine(lines[i]).value.key] == ParseLine(lines[i]).value.value
  {
    var es := Entries(lines);
    var key := ParseLine(lines[i]).value.key;
    assert forall j :: i < j < |lines| ==> !HasKey(es[j], key);
    TableLastWins(es, i);
  }

  /** `Messages::get_string`: the stored value, or `!key!` for a missing key. */
  function GetString(messages: map<string, string>, key: string): (r: string)
    ensures key in messages ==> r == messages[key]
    ensures key !in messages ==> r == "!" + key + "!"
  {
    if key in messages then messages[key] else "!" + key + "!"
  }

  /** Looking a key up in the table read from a file gives the unescaped
      value of the last line that defines it, and `!key!` when none does. */
  lemma GetStringFromLines(lines: seq<string>, key: string)
    ensures (forall i :: 0 <= i < |lines| ==> !Defines(lines[i], key))
            ==> GetString(ParseLines(lines), key) == "!" + key + "!"
    ensures forall i :: (0 <= i < |lines| && Defines(lines[i], key)
                          && (forall j :: i < j < |lines| ==> !Defines(lines[j], key)))
                         ==> GetString(ParseLines(lines), key) == ParseLine(lines[i]).value.value
  {
    ParseLinesKeys(lines, key);
    forall i | 0 <= i < |lines| && Defines(lines[i], key)
        && (forall j :: i < j < |lines| ==> !Defines(lines[j], key))
      ensures GetString(ParseLines(lines), key) == ParseLine(lines[i]).value.value
    {
      LastDefinitionWins(lines, i);
    }
  }
}
