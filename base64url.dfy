/** The unpadded base64url text form used for capability tokens and their digests:
    the URL- and filename-safe alphabet of section 5 of RFC 4648, as produced by
    Python's `base64.urlsafe_b64encode(raw).rstrip(b"=")`, and the decoding side,
    `base64.urlsafe_b64decode(token + pad)`, which runs CPython's non-strict
    `binascii.a2b_base64` scanner on the text. */
module Base64Url {
  import opened Wrappers
  import opened PyText

  /** The character for sextet `v` in the URL- and filename-safe alphabet. */
  function UrlChar(v: nat): (c: char)
    requires v < 64
    ensures IsUrlChar(c)
  {
    if v < 26 then ('A' as int + v) as char
    else if v < 52 then ('a' as int + (v - 26)) as char
    else if v < 62 then ('0' as int + (v - 52)) as char
    else if v == 62 then '-'
    else '_'
  }

  /** `[A-Za-z0-9_-]`: the characters of the URL- and filename-safe alphabet. */
  predicate IsUrlChar(c: char) {
    ('A' <= c <= 'Z') || ('a' <= c <= 'z') || ('0' <= c <= '9') || c == '-' || c == '_'
  }

  /** Every character of `s` is in the URL- and filename-safe alphabet. */
  predicate AllUrlChars(s: string) {
    forall i :: 0 <= i < |s| ==> IsUrlChar(s[i])
  }

  /** The sextet the decoder reads from `c`, or None for a character it skips.
      `urlsafe_b64decode` first maps `-` to `+` and `_` to `/`, so both spellings
      of 62 and of 63 are read. */
  function SextetOf(c: char): (r: Option<nat>)
    ensures r.Some? ==> r.value < 64
    ensures c == '=' ==> r.None?
  {
    if 'A' <= c <= 'Z' then Some(c as int - 'A' as int)
    else if 'a' <= c <= 'z' then Some(c as int - 'a' as int + 26)
    else if '0' <= c <= '9' then Some(c as int - '0' as int + 52)
    else if c == '-' || c == '+' then Some(62)
    else if c == '_' || c == '/' then Some(63)
    else None
  }

  lemma SextetOfUrlChar(v: nat)
    requires v < 64
    ensures SextetOf(UrlChar(v)) == Some(v)
  {
  }

  /** One quantum of the encoding: one to three bytes become four characters, the
      missing bytes of a short final quantum spelled as `=`. */
  function EncodeGroup(g: seq<byte>): (s: string)
    requires 1 <= |g| <= 3
    ensures |s| == 4 && IsUrlChar(s[0]) && IsUrlChar(s[1])
    ensures |g| == 1 ==> s[2] == '=' && s[3] == '='
    ensures |g| == 2 ==> IsUrlChar(s[2]) && s[3] == '='
    ensures |g| == 3 ==> IsUrlChar(s[2]) && IsUrlChar(s[3])
  {
    var b1: byte := if |g| > 1 then g[1] else 0;
    var b2: byte := if |g| > 2 then g[2] else 0;
    [ UrlChar(g[0] / 4),
      UrlChar(g[0] % 4 * 16 + b1 / 16),
      if |g| > 1 then UrlChar(b1 % 16 * 4 + b2 / 64) else '=',
      if |g| > 2 then UrlChar(b2 % 64) else '=' ]
  }

  /** `base64.urlsafe_b64encode(b)`: the padded encoding, quantum by quantum. */
  function UrlsafeB64Encode(b: seq<byte>): (s: string)
    ensures |s| == 4 * ((|b| + 2) / 3)
    decreases |b|
  {
    if |b| == 0 then []
    else if |b| <= 3 then
      DivThree(|b| + 2, 1, |b| - 1);
      EncodeGroup(b)
    else
      DivThree(|b| + 2, (|b| - 1) / 3 + 1, (|b| - 1) % 3);
      EncodeGroup(b[..3]) + UrlsafeB64Encode(b[3..])
  }

  /** The number of `=` that end the padded encoding of `n` bytes. */
  function PadCount(n: nat): nat {
    (3 - n % 3) % 3
  }

  /** The pad character `=`. */
  predicate IsPad(c: char) {
    c == '='
  }

  /** `urlsafe_b64encode(b).rstrip(b"=")`: the unpadded base64url text of `b`. */
  function EncodeUnpadded(b: seq<byte>): (s: string)
  {
    RStrip(UrlsafeB64Encode(b), IsPad)
  }

  /** `token + "=" * (-len(token) % 4)`: the re-padding done before decoding. */
  function Repad(t: string): (r: string)
    ensures |r| % 4 == 0 && |t| <= |r| <= |t| + 3 && r[..|t|] == t
    ensures forall i :: |t| <= i < |r| ==> r[i] == '='
  {
    t + seq((-|t|) % 4, _ => '=')
  }

  /** All characters are ASCII: `str` decode input must encode as ASCII. */
  predicate IsAscii(s: string) {
    forall i :: 0 <= i < |s| ==> s[i] as int < 128
  }

  /** CPython's `binascii.a2b_base64(s, strict_mode=False)`. `quad` is the position
      in the current quantum, `left` the bits still to be emitted, `pads` the `=`
      seen at the end of a quantum. Characters outside the alphabet are skipped;
      a pad that completes a quantum ends decoding; leftover bits are dropped;
      ending part-way into a quantum is an error. */
  function A2B(s: string, quad: nat, left: nat, pads: nat, out: seq<byte>): Option<seq<byte>>
    requires quad < 4 && left < 64
    requires quad == 2 ==> left < 16
    requires quad == 3 ==> left < 4
    decreases |s|
  {
    if s == [] then
      if quad == 0 then Some(out) else None
    else if s[0] == '=' then
      if quad >= 2 && quad + pads + 1 >= 4 then Some(out)
      else A2B(s[1..], quad, left, if quad >= 2 then pads + 1 else pads, out)
    else
      match SextetOf(s[0])
      case None => A2B(s[1..], quad, left, pads, out)
      case Some(v) =>
        if quad == 0 then A2B(s[1..], 1, v, 0, out)
        else if quad == 1 then A2B(s[1..], 2, v % 16, 0, out + [left * 4 + v / 16])
        else if quad == 2 then A2B(s[1..], 3, v % 4, 0, out + [left * 16 + v / 4])
        else A2B(s[1..], 0, 0, 0, out + [left * 64 + v])
  }

  /** `base64.urlsafe_b64decode(s)`; None where Python raises. */
  function UrlsafeB64Decode(s: string): Option<seq<byte>>
  {
    if IsAscii(s) then A2B(s, 0, 0, 0, []) else None
  }

  /** `_b64url_to_bytes(token)`: re-pad, then decode; None where Python raises. */
  function B64UrlToBytes(token: string): Option<seq<byte>>
  {
    UrlsafeB64Decode(Repad(token))
  }

  // ---------------------------------------------------------------------------
  // Shape of the encoding

  /** `s` is alphabet characters followed by exactly `p` pad characters. */
  predicate PaddedShape(s: string, p: nat) {
    && p <= |s|
    && (forall i :: 0 <= i < |s| - p ==> IsUrlChar(s[i]))
    && (forall i :: |s| - p <= i < |s| ==> s[i] == '=')
  }

  lemma GroupShape(g: seq<byte>)
    requires 1 <= |g| <= 3
    ensures PaddedShape(UrlsafeB64Encode(g), PadCount(|g|))
  {
    assert UrlsafeB64Encode(g) == EncodeGroup(g);
    if |g| == 1 {
      assert PadCount(|g|) == 2;
    } else if |g| == 2 {
      assert PadCount(|g|) == 1;
    } else {
      assert PadCount(|g|) == 0;
    }
  }

  /** The padded encoding is alphabet characters followed by exactly `PadCount`
      pad characters. */
  lemma {:induction false} EncodeShape(b: seq<byte>)
    ensures PaddedShape(UrlsafeB64Encode(b), PadCount(|b|))
    decreases |b|
  {
    if 1 <= |b| <= 3 {
      GroupShape(b);
    } else if |b| > 3 {
      EncodeShape(b[3..]);
      var s := UrlsafeB64Encode(b);
      var rest := UrlsafeB64Encode(b[3..]);
      assert s == EncodeGroup(b[..3]) + rest;
      assert PadCount(|b|) == PadCount(|b| - 3);
    }
  }

  /** The length of the unpadded encoding of `n` bytes. */
  function UnpaddedLength(n: nat): nat {
    (4 * n + 2) / 3
  }

  /** Stripping the pads of alphabet-then-pads text leaves the alphabet part. */
  lemma {:induction false} RStripPads(s: string, p: nat)
    requires PaddedShape(s, p)
    ensures RStrip(s, IsPad) == s[..|s| - p]
    decreases |s|
  {
    if p > 0 {
      var s' := s[..|s| - 1];
      assert PaddedShape(s', p - 1);
      RStripPads(s', p - 1);
      assert s'[..|s'| - (p - 1)] == s[..|s| - p];
    }
  }

  /** Division by 3 of a number written as `3 * k + m`. */
  lemma DivThree(a: int, k: int, m: int)
    requires a == 3 * k + m && 0 <= m < 3
    ensures a / 3 == k
  {
  }

  /** The remainder by 4 of a number written as `4 * k + m`. */
  lemma ModFour(a: int, k: int, m: int)
    requires a == 4 * k + m && 0 <= m < 4
    ensures a % 4 == m
  {
  }

  /** The unpadded encoding is the padded one without its pad characters: it has
      `UnpaddedLength(|b|)` characters, all in the URL-safe alphabet. */
  lemma UnpaddedLengthOfPadded(n: nat)
    ensures 4 * ((n + 2) / 3) - PadCount(n) == UnpaddedLength(n)
    ensures (-(UnpaddedLength(n) as int)) % 4 == PadCount(n)
  {
    var q := n / 3;
    var r := n % 3;
    assert n == 3 * q + r;
    if r == 0 {
      DivThree(n + 2, q, 2);
      DivThree(4 * n + 2, 4 * q, 2);
      ModFour(-(4 * q), -q, 0);
    } else if r == 1 {
      DivThree(n + 2, q + 1, 0);
      DivThree(4 * n + 2, 4 * q + 2, 0);
      ModFour(-(4 * q + 2), -q - 1, 2);
    } else {
      DivThree(n + 2, q + 1, 1);
      DivThree(4 * n + 2, 4 * q + 3, 1);
      ModFour(-(4 * q + 3), -q - 1, 1);
    }
  }

  lemma EncodeUnpaddedIsPrefix(b: seq<byte>)
    ensures var s := UrlsafeB64Encode(b);
            && |EncodeUnpadded(b)| == |s| - PadCount(|b|) == UnpaddedLength(|b|)
            && EncodeUnpadded(b) == s[..|s| - PadCount(|b|)]
            && AllUrlChars(EncodeUnpadded(b))
  {
    EncodeShape(b);
    RStripPads(UrlsafeB64Encode(b), PadCount(|b|));
    UnpaddedLengthOfPadded(|b|);
  }

  /** Re-padding the unpadded encoding gives back the padded one. */
  lemma RepadEncodeUnpadded(b: seq<byte>)
    ensures Repad(EncodeUnpadded(b)) == UrlsafeB64Encode(b)
  {
    var s := UrlsafeB64Encode(b);
    var p := PadCount(|b|);
    var t := EncodeUnpadded(b);
    EncodeShape(b);
    EncodeUnpaddedIsPrefix(b);
    var k := |s| - p;
    var pads := s[k..];
    assert |pads| == p && |t| == k;
    assert forall i :: 0 <= i < p ==> pads[i] == s[k + i] == '=';
    assert pads == seq(p, _ => '=');
    assert s == s[..k] + pads;
    RepadBy(t, |b|);
  }

  /** Re-padding text of the unpadded length of `n` bytes adds their pad count. */
  lemma RepadBy(t: string, n: nat)
    requires |t| == UnpaddedLength(n)
    ensures Repad(t) == t + seq(PadCount(n), _ => '=')
  {
    UnpaddedLengthOfPadded(n);
  }

  // ---------------------------------------------------------------------------
  // Decoding inverts encoding

  /** One step of the scanner on a character of the alphabet, in each position of
      the quantum: the first sextet is held; each later one completes a byte. */
  lemma ReadFirst(s: string, v: nat, out: seq<byte>)
    requires s != [] && SextetOf(s[0]) == Some(v)
    ensures A2B(s, 0, 0, 0, out) == A2B(s[1..], 1, v, 0, out)
  {
  }

  lemma ReadSecond(s: string, left: nat, v: nat, out: seq<byte>)
    requires left < 64 && s != [] && SextetOf(s[0]) == Some(v)
    ensures A2B(s, 1, left, 0, out) == A2B(s[1..], 2, v % 16, 0, out + [left * 4 + v / 16])
  {
  }

  lemma ReadThird(s: string, left: nat, v: nat, out: seq<byte>)
    requires left < 16 && s != [] && SextetOf(s[0]) == Some(v)
    ensures A2B(s, 2, left, 0, out) == A2B(s[1..], 3, v % 4, 0, out + [left * 16 + v / 4])
  {
  }

  lemma ReadFourth(s: string, left: nat, v: nat, out: seq<byte>)
    requires left < 4 && s != [] && SextetOf(s[0]) == Some(v)
    ensures A2B(s, 3, left, 0, out) == A2B(s[1..], 0, 0, 0, out + [left * 64 + v])
  {
  }

  /** Four alphabet characters decode to the three bytes their sextets spell. */
  lemma ReadQuantum(s: string, c0: nat, c1: nat, c2: nat, c3: nat, out: seq<byte>)
    requires |s| >= 4 && c0 < 64
    requires SextetOf(s[0]) == Some(c0) && SextetOf(s[1]) == Some(c1)
    requires SextetOf(s[2]) == Some(c2) && SextetOf(s[3]) == Some(c3)
    ensures A2B(s, 0, 0, 0, out)
         == A2B(s[4..], 0, 0, 0, out + [c0 * 4 + c1 / 16] + [c1 % 16 * 16 + c2 / 4] + [c2 % 4 * 64 + c3])
  {
    var s1, s2, s3 := s[1..], s[2..], s[3..];
    assert s2 == s1[1..] && s3 == s2[1..] && s[4..] == s3[1..];
    ReadFirst(s, c0, out);
    ReadSecond(s1, c0, c1, out);
    ReadThird(s2, c1 % 16, c2, out + [c0 * 4 + c1 / 16]);
    ReadFourth(s3, c2 % 4, c3, out + [c0 * 4 + c1 / 16] + [c1 % 16 * 16 + c2 / 4]);
  }

  /** A full quantum decodes to the three bytes it encodes, leaving the decoder at
      the start of the next quantum. */
  lemma DecodeFullGroup(g: seq<byte>, rest: string, out: seq<byte>)
    requires |g| == 3
    ensures A2B(EncodeGroup(g) + rest, 0, 0, 0, out) == A2B(rest, 0, 0, 0, out + g)
  {
    var x, y, z := g[0], g[1], g[2];
    var c0, c1, c2, c3 := x / 4, x % 4 * 16 + y / 16, y % 16 * 4 + z / 64, z % 64;
    var s0 := EncodeGroup(g) + rest;
    assert s0[0] == UrlChar(c0) && s0[1] == UrlChar(c1) && s0[2] == UrlChar(c2) && s0[3] == UrlChar(c3);
    assert s0[4..] == rest;
    SextetOfUrlChar(c0);
    SextetOfUrlChar(c1);
    SextetOfUrlChar(c2);
    SextetOfUrlChar(c3);
    assert c0 * 4 + c1 / 16 == x;
    assert c1 % 16 * 16 + c2 / 4 == y;
    assert c2 % 4 * 64 + c3 == z;
    ReadQuantum(s0, c0, c1, c2, c3, out);
    assert out + [g[0]] + [g[1]] + [g[2]] == out + g by {
      assert [g[0]] + [g[1]] + [g[2]] == g;
    }
    assert out + [c0 * 4 + c1 / 16] + [c1 % 16 * 16 + c2 / 4] + [c2 % 4 * 64 + c3] == out + g;
  }

  /** A short final quantum, with its pads, decodes to the one or two bytes it
      encodes and ends decoding. */
  lemma DecodeLastGroup(g: seq<byte>, out: seq<byte>)
    requires 1 <= |g| <= 2
    ensures A2B(EncodeGroup(g), 0, 0, 0, out) == Some(out + g)
  {
    var x: byte := g[0];
    var y: byte := if |g| > 1 then g[1] else 0;
    var c0, c1, c2 := x / 4, x % 4 * 16 + y / 16, y % 16 * 4;
    var s0 := EncodeGroup(g);
    var s1, s2, s3 := s0[1..], s0[2..], s0[3..];
    assert s0[0] == UrlChar(c0) && s1[0] == UrlChar(c1) && s3[0] == '=' && s3[1..] == [];
    assert s1 == s0[1..] && s2 == s1[1..] && s3 == s2[1..];
    SextetOfUrlChar(c0);
    SextetOfUrlChar(c1);
    assert c0 * 4 + c1 / 16 == x;
    ReadFirst(s0, c0, out);
    ReadSecond(s1, c0, c1, out);
    if |g| == 2 {
      SextetOfUrlChar(c2);
      assert s2[0] == UrlChar(c2);
      assert c1 % 16 * 16 + c2 / 4 == y;
      ReadThird(s2, c1 % 16, c2, out + [x]);
      assert A2B(s3, 3, c2 % 4, 0, out + [x] + [y]) == Some(out + [x] + [y]);
      assert out + [x] + [y] == out + g;
    } else {
      assert s2[0] == '=';
      assert A2B(s2, 2, c1 % 16, 0, out + [x]) == A2B(s3, 2, c1 % 16, 1, out + [x]);
      assert A2B(s3, 2, c1 % 16, 1, out + [x]) == Some(out + [x]);
      assert out + [x] == out + g;
    }
  }

  /** The padded encoding of `b` decodes to `b`, appended to whatever was already
      decoded. */
  lemma {:induction false} DecodeEncode(b: seq<byte>, out: seq<byte>)
    ensures A2B(UrlsafeB64Encode(b), 0, 0, 0, out) == Some(out + b)
    decreases |b|
  {
    if |b| == 0 {
      assert out + b == out;
    } else if |b| == 3 {
      DecodeFullGroup(b, [], out);
      assert EncodeGroup(b) + [] == EncodeGroup(b);
    } else if |b| < 3 {
      DecodeLastGroup(b, out);
    } else {
      var head, tail := b[..3], b[3..];
      assert UrlsafeB64Encode(b) == EncodeGroup(head) + UrlsafeB64Encode(tail);
      DecodeFullGroup(head, UrlsafeB64Encode(tail), out);
      DecodeEncode(tail, out + head);
      assert out + head + tail == out + b by {
        assert head + tail == b;
      }
    }
  }

  /** `_b64url_to_bytes` recovers the bytes of an unpadded base64url encoding. */
  lemma B64UrlRoundTrip(b: seq<byte>)
    ensures B64UrlToBytes(EncodeUnpadded(b)) == Some(b)
  {
    RepadEncodeUnpadded(b);
    EncodeShape(b);
    var s := UrlsafeB64Encode(b);
    assert IsAscii(s) by {
      forall i | 0 <= i < |s| ensures s[i] as int < 128 {
        if i < |s| - PadCount(|b|) {
          assert IsUrlChar(s[i]);
        }
      }
    }
    DecodeEncode(b, []);
    assert [] + b == b;
  }
}
