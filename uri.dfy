/**
 * `encodeURIComponent` (ECMAScript, section 19.2.6.5 of ECMA-262): every
 * character outside the unreserved set is replaced by the percent-encoded
 * bytes of its UTF-8 encoding (RFC 3629), with upper-case hex digits.
 */
module Uri {
  /** The characters `encodeURIComponent` leaves as they are. */
  predicate IsUnreserved(c: char) {
    ('A' <= c <= 'Z') || ('a' <= c <= 'z') || ('0' <= c <= '9') ||
    c == '-' || c == '_' || c == '.' || c == '!' || c == '~' || c == '*' || c == '\'' || c == '(' || c == ')'
  }

  predicate IsUpperHex(c: char) {
    ('0' <= c <= '9') || ('A' <= c <= 'F')
  }

  const HexDigits: string := "0123456789ABCDEF"

  /** The UTF-8 encoding of one Unicode scalar value. */
  function Utf8(c: char): (bytes: seq<int>)
    ensures 1 <= |bytes| <= 4
    ensures forall i :: 0 <= i < |bytes| ==> 0 <= bytes[i] < 256
    ensures |bytes| == 1 <==> (c as int) < 0x80
    ensures |bytes| == 1 ==> bytes[0] == c as int
  {
    var v := c as int;
    if v < 0x80 then [v]
    else if v < 0x800 then [0xC0 + v / 0x40, 0x80 + v % 0x40]
    else if v < 0x1_0000 then [0xE0 + v / 0x1000, 0x80 + (v / 0x40) % 0x40, 0x80 + v % 0x40]
    else [0xF0 + v / 0x4_0000, 0x80 + (v / 0x1000) % 0x40, 0x80 + (v / 0x40) % 0x40, 0x80 + v % 0x40]
  }

  /** `%XX` for one byte. */
  function PercentByte(b: int): (r: string)
    requires 0 <= b < 256
    ensures |r| == 3 && r[0] == '%' && IsUpperHex(r[1]) && IsUpperHex(r[2])
  {
    ['%', HexDigits[b / 16], HexDigits[b % 16]]
  }

  function PercentBytes(bytes: seq<int>): (r: string)
    requires forall i :: 0 <= i < |bytes| ==> 0 <= bytes[i] < 256
    ensures |r| == 3 * |bytes|
    ensures forall i :: 0 <= i < |r| ==> r[i] == '%' || IsUpperHex(r[i])
  {
    if bytes == [] then [] else PercentByte(bytes[0]) + PercentBytes(bytes[1..])
  }

  /** The encoding of one character. */
  function EncodeChar(c: char): (r: string)
    ensures IsUnreserved(c) ==> r == [c]
    ensures !IsUnreserved(c) ==> |r| == 3 * |Utf8(c)| && r[0] == '%'
  {
    if IsUnreserved(c) then [c] else PercentBytes(Utf8(c))
  }

  function EncodeUriComponent(s: string): string {
    if s == [] then [] else EncodeChar(s[0]) + EncodeUriComponent(s[1..])
  }

  /** The output uses only unreserved characters, `%` and upper-case hex digits: never `:`, `@`, `/`, `?` or `#`. */
  lemma {:induction false} EncodedAlphabet(s: string)
    ensures forall i :: 0 <= i < |EncodeUriComponent(s)| ==>
      var c := EncodeUriComponent(s)[i]; IsUnreserved(c) || c == '%'
  {
    if s != [] {
      EncodedAlphabet(s[1..]);
      var head := EncodeChar(s[0]);
      var tail := EncodeUriComponent(s[1..]);
      forall i | 0 <= i < |head + tail|
        ensures IsUnreserved((head + tail)[i]) || (head + tail)[i] == '%'
      {
        if i >= |head| {
          assert (head + tail)[i] == tail[i - |head|];
        }
      }
    }
  }

  /** A string of unreserved characters is its own encoding. */
  lemma {:induction false} EncodeUnreservedIdentity(s: string)
    requires forall i :: 0 <= i < |s| ==> IsUnreserved(s[i])
    ensures EncodeUriComponent(s) == s
  {
    if s != [] {
      EncodeUnreservedIdentity(s[1..]);
      assert s == [s[0]] + s[1..];
    }
  }

  /** Encoding works character by character: it distributes over concatenation. */
  lemma {:induction false} EncodeAppend(a: string, b: string)
    ensures EncodeUriComponent(a + b) == EncodeUriComponent(a) + EncodeUriComponent(b)
  {
    if a == [] {
      assert a + b == b;
    } else {
      assert (a + b)[1..] == a[1..] + b;
      EncodeAppend(a[1..], b);
    }
  }

  /** A space is one byte, so it becomes one escape. */
  lemma EncodeSpaceExample()
    ensures EncodeUriComponent("p w") == "p%20w"
  {
    assert PercentBytes([0x20]) == PercentByte(0x20) + PercentBytes([]);
    assert EncodeUriComponent("w") == EncodeChar('w') + EncodeUriComponent("");
    assert EncodeUriComponent(" w") == EncodeChar(' ') + EncodeUriComponent("w");
  }

  /** `@`, which separates the password from the host, is escaped. */
  lemma EncodeAtExample()
    ensures EncodeUriComponent("a@b") == "a%40b"
  {
    assert PercentBytes([0x40]) == PercentByte(0x40) + PercentBytes([]);
    assert EncodeUriComponent("b") == EncodeChar('b') + EncodeUriComponent("");
    assert EncodeUriComponent("@b") == EncodeChar('@') + EncodeUriComponent("b");
  }

  /** `é` takes two UTF-8 bytes, so it becomes two escapes. */
  lemma EncodeTwoByteExample()
    ensures EncodeUriComponent("\U{E9}") == "%C3%A9"
  {
    assert Utf8('\U{E9}') == [0xC3, 0xA9];
    assert PercentBytes([0xA9]) == PercentByte(0xA9) + PercentBytes([]);
    assert PercentBytes([0xC3, 0xA9]) == PercentByte(0xC3) + PercentBytes([0xA9]);
  }
}
