// The identifier codec: one percent-decoding pass with its checks, and the
// encoder used for every URI the server emits.
module Ident {
  import opened Wrappers
  import opened Text
  import opened Utf8

  datatype Identifier = Identifier(path: string)

  datatype IdentifierError = Empty | BadEscape | NotUtf8 | ControlCharacter | Backslash | Traversal

  // Text is bytes, one char each.
  predicate Bytes(s: string) {
    forall i :: 0 <= i < |s| ==> s[i] as int < 256
  }

  // hex_val
  function HexVal(c: char): (v: Option<nat>)
    ensures v.Some? ==> v.value < 16
  {
    if '0' <= c <= '9' then Some(c as int - '0' as int)
    else if 'a' <= c <= 'f' then Some(c as int - 'a' as int + 10)
    else if 'A' <= c <= 'F' then Some(c as int - 'A' as int + 10)
    else None
  }

  function HexDigit(n: nat): (c: char)
    requires n < 16
    ensures HexVal(c) == Some(n)
  {
    if n < 10 then (n + '0' as int) as char else (n - 10 + 'A' as int) as char
  }

  // ----- what one pass decodes -----

  function Prepend(head: string, tail: Option<string>): Option<string> {
    match tail
    case Some(t) => Some(head + t)
    case None => None
  }

  function PercentDecode(raw: string): Option<string> {
    if raw == "" then Some("")
    else if raw[0] != '%' then Prepend([raw[0]], PercentDecode(raw[1..]))
    else if |raw| < 3 then None
    else
      match (HexVal(raw[1]), HexVal(raw[2]))
      case (Some(hi), Some(lo)) => Prepend([(hi * 16 + lo) as char], PercentDecode(raw[3..]))
      case _ => None
  }

  // ----- which texts decode to what -----

  const LOWER_HEX := "0123456789abcdef"
  const UPPER_HEX := "0123456789ABCDEF"

  // The digit for n, in either case.
  predicate IsHexOf(c: char, n: nat) {
    n < 16 && (c == LOWER_HEX[n] || c == UPPER_HEX[n])
  }

  lemma HexValIff(c: char, n: nat)
    ensures HexVal(c) == Some(n) <==> IsHexOf(c, n)
  {
  }

  predicate IsEscapeOf(escape: string, c: char) {
    && |escape| == 3 && escape[0] == '%'
    && IsHexOf(escape[1], c as int / 16) && IsHexOf(escape[2], c as int % 16)
  }

  // Each byte of the text is written as itself, unless it is a `%`, or as the
  // escape of its value.
  predicate SpelledBy(text: string, raw: string) {
    if text == "" then raw == ""
    else
      || (raw != "" && raw[0] == text[0] && raw[0] != '%' && SpelledBy(text[1..], raw[1..]))
      || (|raw| >= 3 && IsEscapeOf(raw[..3], text[0]) && SpelledBy(text[1..], raw[3..]))
  }

  lemma PrependIs(head: char, tail: Option<string>, text: string)
    ensures Prepend([head], tail) == Some(text) <==> text != "" && text[0] == head && tail == Some(text[1..])
  {
    if text != "" {
      assert text == [text[0]] + text[1..];
    }
    if tail.Some? {
      assert ([head] + tail.value)[1..] == tail.value;
    }
  }

  lemma EscapeIs(raw: string, hi: nat, lo: nat, c: char)
    requires |raw| >= 3 && raw[0] == '%' && HexVal(raw[1]) == Some(hi) && HexVal(raw[2]) == Some(lo)
    ensures IsEscapeOf(raw[..3], c) <==> c as int == hi * 16 + lo
  {
    HexValIff(raw[1], c as int / 16);
    HexValIff(raw[2], c as int % 16);
    HexValIff(raw[1], hi);
    HexValIff(raw[2], lo);
  }

  lemma NoEscape(raw: string, c: char)
    requires |raw| >= 3 && (HexVal(raw[1]).None? || HexVal(raw[2]).None?)
    ensures !IsEscapeOf(raw[..3], c)
  {
    HexValIff(raw[1], c as int / 16);
    HexValIff(raw[2], c as int % 16);
  }

  // One pass decodes exactly the spellings of a text, and to that text: escapes in
  // digits of either case, once and not again.
  lemma {:induction false} DecodesIff(raw: string, text: string)
    ensures PercentDecode(raw) == Some(text) <==> SpelledBy(text, raw)
    decreases |raw|
  {
    if raw == "" {
    } else if raw[0] != '%' {
      PrependIs(raw[0], PercentDecode(raw[1..]), text);
      if text != "" {
        DecodesIff(raw[1..], text[1..]);
      }
    } else if |raw| >= 3 {
      match (HexVal(raw[1]), HexVal(raw[2]))
      case (Some(hi), Some(lo)) =>
        PrependIs((hi * 16 + lo) as char, PercentDecode(raw[3..]), text);
        if text != "" {
          EscapeIs(raw, hi, lo, text[0]);
          DecodesIff(raw[3..], text[1..]);
        }
      case _ =>
        if text != "" {
          NoEscape(raw, text[0]);
        }
    }
  }

  // ----- the case of a digit -----

  function LowerDigit(c: char): char {
    if 'A' <= c <= 'F' then (c as int + 32) as char else c
  }

  // The same text but for the case of hex digits, escape by escape.
  predicate SameButCase(a: string, b: string) {
    if a == "" || a[0] != '%' then
      (a == "" && b == "") || (a != "" && b != "" && a[0] == b[0] && SameButCase(a[1..], b[1..]))
    else if |a| < 3 then a == b
    else
      && |b| >= 3 && b[0] == '%' && LowerDigit(a[1]) == LowerDigit(b[1]) && LowerDigit(a[2]) == LowerDigit(b[2])
      && SameButCase(a[3..], b[3..])
  }

  lemma DigitCase(c: char, d: char)
    requires LowerDigit(c) == LowerDigit(d)
    ensures HexVal(c) == HexVal(d)
  {
  }

  lemma {:induction false} CaseOfDigits(a: string, b: string)
    requires SameButCase(a, b)
    ensures PercentDecode(a) == PercentDecode(b)
  {
    if a == "" || (a[0] == '%' && |a| < 3) {
    } else if a[0] != '%' {
      CaseOfDigits(a[1..], b[1..]);
    } else {
      DigitCase(a[1], b[1]);
      DigitCase(a[2], b[2]);
      CaseOfDigits(a[3..], b[3..]);
    }
  }

  // Identifiers that differ in that are accepted or refused alike, and name one
  // path.
  lemma CaseDoesNotMatter(a: string, b: string)
    requires SameButCase(a, b)
    ensures Decoded(a) == Decoded(b)
  {
    CaseOfDigits(a, b);
  }

  // Every byte written as an escape, in digits from either table.
  function EscapeAll(table: string, path: string): string
    requires |table| == 16 && Bytes(path)
  {
    if path == "" then ""
    else ['%', table[path[0] as int / 16], table[path[0] as int % 16]] + EscapeAll(table, path[1..])
  }

  lemma {:induction false} EscapesUndone(table: string, path: string)
    requires (table == LOWER_HEX || table == UPPER_HEX) && Bytes(path)
    ensures PercentDecode(EscapeAll(table, path)) == Some(path)
  {
    EscapesSpell(table, path);
    DecodesIff(EscapeAll(table, path), path);
  }

  lemma {:induction false} EscapesSpell(table: string, path: string)
    requires (table == LOWER_HEX || table == UPPER_HEX) && Bytes(path)
    ensures SpelledBy(path, EscapeAll(table, path))
  {
    if path != "" {
      EscapesSpell(table, path[1..]);
      var raw := EscapeAll(table, path);
      assert raw[3..] == EscapeAll(table, path[1..]);
      assert raw[..3] == ['%', table[path[0] as int / 16], table[path[0] as int % 16]];
    }
  }

  // ----- the checks on the decoded bytes -----

  predicate IsControl(c: char) {
    c as int < 0x20 || c as int == 0x7F
  }

  predicate Unsafe(segment: string) {
    segment == "" || segment == "." || segment == ".."
  }

  function Check(decoded: string): Result<Identifier, IdentifierError> {
    if !ValidUtf8(decoded) then Failure(NotUtf8)
    else if exists c :: c in decoded && IsControl(c) then Failure(ControlCharacter)
    else if '\\' in decoded then Failure(Backslash)
    else if decoded != "" && decoded[0] == '/' then Failure(Traversal)
    else if exists segment :: segment in Split(decoded, '/') && Unsafe(segment) then Failure(Traversal)
    else Success(Identifier(decoded))
  }

  // What decoding a raw identifier means, errors in the order they are found.
  function Decoded(raw: string): Result<Identifier, IdentifierError> {
    if raw == "" then Failure(Empty)
    else
      match PercentDecode(raw)
      case None => Failure(BadEscape)
      case Some(decoded) => Check(decoded)
  }

  // The single left-to-right pass.
  method Unescape(raw: string) returns (r: Option<string>)
    requires Bytes(raw)
    ensures r == PercentDecode(raw)
  {
    var bytes := "";
    var at := 0;
    PrependNothing(PercentDecode(raw));
    assert raw[at..] == raw;
    while at < |raw|
      invariant at <= |raw|
      invariant PercentDecode(raw) == Prepend(bytes, PercentDecode(raw[at..]))
    {
      var byte := raw[at];
      ghost var rest := raw[at..];
      if byte == '%' {
        var hi := if at + 1 < |raw| then HexVal(raw[at + 1]) else None;
        if hi.None? {
          return None;
        }
        var lo := if at + 2 < |raw| then HexVal(raw[at + 2]) else None;
        if lo.None? {
          return None;
        }
        assert rest[3..] == raw[at + 3..];
        PrependTwice(bytes, [(hi.value * 16 + lo.value) as char], PercentDecode(rest[3..]));
        bytes := bytes + [(hi.value * 16 + lo.value) as char];
        at := at + 3;
      } else {
        assert rest[1..] == raw[at + 1..];
        PrependTwice(bytes, [byte], PercentDecode(rest[1..]));
        bytes := bytes + [byte];
        at := at + 1;
      }
    }
    assert bytes + "" == bytes;
    return Some(bytes);
  }

  method Decode(raw: string) returns (r: Result<Identifier, IdentifierError>)
    requires Bytes(raw)
    ensures r == Decoded(raw)
  {
    if raw == "" {
      return Failure(Empty);
    }
    var unescaped := Unescape(raw);
    if unescaped.None? {
      return Failure(BadEscape);
    }
    var decoded := unescaped.value;
    if !ValidUtf8(decoded) {
      return Failure(NotUtf8);
    }
    if exists c :: c in decoded && IsControl(c) {
      return Failure(ControlCharacter);
    }
    if '\\' in decoded {
      return Failure(Backslash);
    }
    if decoded != "" && decoded[0] == '/' {
      return Failure(Traversal);
    }
    var unsafe := AnyUnsafe(Split(decoded, '/'));
    return if unsafe then Failure(Traversal) else Success(Identifier(decoded));
  }

  // for segment in decoded.split('/')
  method AnyUnsafe(segments: seq<string>) returns (found: bool)
    ensures found <==> exists segment :: segment in segments && Unsafe(segment)
  {
    for i := 0 to |segments|
      invariant forall k :: 0 <= k < i ==> !Unsafe(segments[k])
    {
      if Unsafe(segments[i]) {
        return true;
      }
    }
    return false;
  }

  lemma PrependNothing(tail: Option<string>)
    ensures Prepend("", tail) == tail
  {
    if tail.Some? {
      assert "" + tail.value == tail.value;
    }
  }

  lemma PrependTwice(a: string, b: string, tail: Option<string>)
    ensures Prepend(a, Prepend(b, tail)) == Prepend(a + b, tail)
  {
    if tail.Some? {
      assert a + (b + tail.value) == (a + b) + tail.value;
    }
  }

  // ----- the encoder -----

  predicate Escapes(c: char) {
    c in "/?#[]@%" || !Within(c, 0x21, 0x7E)
  }

  function EncodeByte(c: char): string
    requires c as int < 256
  {
    if Escapes(c) then ['%', HexDigit(c as int / 16), HexDigit(c as int % 16)] else [c]
  }

  function Encoding(path: string): string
    requires Bytes(path)
  {
    if path == "" then "" else EncodeByte(path[0]) + Encoding(path[1..])
  }

  method Encoded(id: Identifier) returns (out: string)
    requires Bytes(id.path)
    ensures out == Encoding(id.path)
  {
    out := "";
    for i := 0 to |id.path|
      invariant Encoding(id.path) == out + Encoding(id.path[i..])
    {
      var byte := id.path[i];
      EncodingNext(id.path, out, i);
      if Escapes(byte) {
        ThreePushes(out, '%', HexDigit(byte as int / 16), HexDigit(byte as int % 16));
        out := out + ['%'];
        out := out + [HexDigit(byte as int / 16)];
        out := out + [HexDigit(byte as int % 16)];
      } else {
        out := out + [byte];
      }
    }
  }

  // Printable ASCII but for eight characters is kept, every other byte escaped in
  // capital digits.
  lemma EncodedByteIs(c: char)
    requires c as int < 256
    ensures EncodeByte(c) == if 0x21 <= c as int <= 0x7E && c !in "/?#[]@%" then [c]
                             else ['%', UPPER_HEX[c as int / 16], UPPER_HEX[c as int % 16]]
  {
  }

  lemma EncodingNext(path: string, out: string, i: nat)
    requires Bytes(path) && i < |path|
    ensures out + Encoding(path[i..]) == (out + EncodeByte(path[i])) + Encoding(path[i + 1..])
  {
    assert path[i..][1..] == path[i + 1..];
    ConcatAssoc(out, EncodeByte(path[i]), Encoding(path[i + 1..]));
  }

  lemma ThreePushes(out: string, a: char, b: char, c: char)
    ensures out + [a] + [b] + [c] == out + [a, b, c]
  {
  }

  // ----- the two together -----

  lemma DecodeEncodedByte(c: char, rest: string)
    requires c as int < 256
    ensures PercentDecode(EncodeByte(c) + rest) == Prepend([c], PercentDecode(rest))
  {
    var s := EncodeByte(c) + rest;
    if Escapes(c) {
      assert s[3..] == rest;
      assert (c as int / 16 * 16 + c as int % 16) as char == c;
    } else {
      assert s[1..] == rest;
    }
  }

  // One pass undoes the encoder for every byte string, escapes inside it and all.
  lemma {:induction false} DecodeUndoesEncoding(path: string)
    requires Bytes(path)
    ensures PercentDecode(Encoding(path)) == Some(path)
  {
    if path != "" {
      DecodeUndoesEncoding(path[1..]);
      DecodeEncodedByte(path[0], Encoding(path[1..]));
      assert path == [path[0]] + path[1..];
    }
  }

  // Encoded text is printable ASCII without the reserved characters, a `%`
  // apart, so it is one segment of any path it is put in.
  lemma {:induction false} EncodingShape(path: string)
    requires Bytes(path)
    ensures forall c :: c in Encoding(path) ==> Within(c, 0x21, 0x7E) && c !in "/?#[]@"
    ensures |Encoding(path)| >= |path|
  {
    if path != "" {
      EncodingShape(path[1..]);
    }
  }

  lemma EncodedBytes(path: string)
    requires Bytes(path)
    ensures Bytes(Encoding(path))
  {
    EncodingShape(path);
    forall i | 0 <= i < |Encoding(path)|
      ensures Encoding(path)[i] as int < 256
    {
      assert Encoding(path)[i] in Encoding(path);
    }
  }

  // Printable, and none of the eight reserved characters.
  predicate Plain(path: string) {
    forall c :: c in path ==> 0x21 <= c as int <= 0x7E && c !in "/?#[]@%"
  }

  lemma PlainStep(path: string)
    requires path != ""
    ensures Plain(path) <==> !Escapes(path[0]) && Plain(path[1..])
  {
    forall c
      ensures c in path <==> c == path[0] || c in path[1..]
    {
      assert path == [path[0]] + path[1..];
    }
  }

  // It escapes nothing it need not: text without such bytes stays as it is.
  lemma {:induction false} EncodingPlain(path: string)
    requires Bytes(path)
    ensures Encoding(path) == path <==> Plain(path)
  {
    if path != "" {
      PlainStep(path);
      EncodingPlain(path[1..]);
      EncodingShape(path[1..]);
      assert path == [path[0]] + path[1..];
      if Escapes(path[0]) {
        assert |Encoding(path)| > |path|;
      }
    }
  }

  lemma {:induction false} DecodeYieldsBytes(raw: string)
    requires Bytes(raw) && PercentDecode(raw).Some?
    ensures Bytes(PercentDecode(raw).value)
    ensures |PercentDecode(raw).value| <= |raw|
  {
    if raw != "" {
      DecodeYieldsBytes(raw[if raw[0] == '%' then 3 else 1..]);
    }
  }

  // A path that joins safely under a source root.
  ghost predicate SafePath(path: string) {
    && Bytes(path) && IsUtf8(path)
    && (forall c :: c in path ==> 0x20 <= c as int && c as int != 0x7F && c != '\\')
    && (forall segment :: segment in Split(path, '/') ==> segment != "" && segment != "." && segment != "..")
  }

  lemma FirstSegment(path: string)
    requires path != "" && path[0] == '/'
    ensures "" in Split(path, '/')
  {
    FindAt(path, '/', 0);
    assert Split(path, '/')[0] == "";
  }

  lemma CheckIff(path: string)
    requires Bytes(path)
    ensures Check(path).Success? <==> SafePath(path)
    ensures SafePath(path) ==> path != ""
  {
    ValidUtf8Iff(path);
    if path == "" {
      assert Split(path, '/') == [path];
      assert "" in Split(path, '/');
    } else if path[0] == '/' {
      FirstSegment(path);
    }
  }

  // A raw identifier is accepted exactly when it spells a safe path, and that path
  // is then the identifier.
  lemma AcceptedIff(raw: string, path: string)
    requires Bytes(raw)
    ensures Decoded(raw) == Success(Identifier(path)) <==> SpelledBy(path, raw) && SafePath(path)
  {
    DecodesIff(raw, path);
    AcceptedDecodes(raw);
  }

  lemma AcceptedDecodes(raw: string)
    requires Bytes(raw)
    ensures Decoded(raw).Success? <==> PercentDecode(raw).Some? && SafePath(PercentDecode(raw).value)
    ensures Decoded(raw).Success? ==> Decoded(raw).value.path == PercentDecode(raw).value
  {
    if PercentDecode(raw).Some? {
      DecodeYieldsBytes(raw);
      CheckIff(PercentDecode(raw).value);
    }
  }

  // What any other identifier is refused for, the first reason that applies: it
  // is empty, spells nothing, or spells a text that is not UTF-8, holds a control
  // character, holds a backslash, or has an empty or dotted segment.
  lemma RefusalIs(raw: string, text: string)
    ensures Decoded("") == Failure(Empty)
    ensures raw != "" && (forall s :: !SpelledBy(s, raw)) ==> Decoded(raw) == Failure(BadEscape)
    ensures raw != "" && SpelledBy(text, raw) ==>
      && (!IsUtf8(text) ==> Decoded(raw) == Failure(NotUtf8))
      && (IsUtf8(text) ==>
            if exists c :: c in text && (c as int < 0x20 || c as int == 0x7F)
            then Decoded(raw) == Failure(ControlCharacter)
            else if '\\' in text then Decoded(raw) == Failure(Backslash)
            else Decoded(raw) == Failure(Traversal) || Decoded(raw) == Success(Identifier(text)))
  {
    DecodesIff(raw, text);
    ValidUtf8Iff(text);
    if PercentDecode(raw).Some? {
      DecodesIff(raw, PercentDecode(raw).value);
    }
  }

  // Every decodable identifier survives encoding and decoding again.
  lemma IdentifierRoundTrip(raw: string)
    requires Bytes(raw) && Decoded(raw).Success?
    ensures var id := Decoded(raw).value;
      SafePath(id.path) && Decoded(Encoding(id.path)) == Success(id)
  {
    AcceptedDecodes(raw);
    var path := Decoded(raw).value.path;
    EncodedBytes(path);
    AcceptedDecodes(Encoding(path));
    DecodeUndoesEncoding(path);
    EncodingShape(path);
  }
}
