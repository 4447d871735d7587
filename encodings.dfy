/**
 * Recovering Chinese text from the portal's inconsistently encoded pages.
 * The byte decoders themselves are library code: a Codec supplies them as functions,
 * `decode(enc, bytes)` being None exactly when Python's `bytes.decode(enc)` raises.
 */
module Encodings {
  import opened Wrappers
  import opened Strings

  newtype byte = x: int | 0 <= x < 256

  datatype Encoding = Big5 | Cp950 | Utf8 | Gbk

  datatype Codec = Codec(
    decode: (Encoding, seq<byte>) -> Option<string>,
    /** `bytes.decode('big5', errors='replace')`, which never raises */
    decodeBig5Replacing: seq<byte> -> string)

  /** The candidates `decode_field` tries, in order. */
  const FieldEncodings: seq<Encoding> := [Big5, Cp950, Utf8]

  /** The candidates the course-table fetch tries on the response body, in order. */
  const BodyEncodings: seq<Encoding> := [Big5, Cp950, Utf8, Gbk]

  predicate IsLatin1(s: string) {
    forall i :: 0 <= i < |s| ==> s[i] as int < 256
  }

  /** `s.encode('latin1')`: one byte per code point, or None when a code point is above U+00FF. */
  function Latin1Encode(s: string): (r: Option<seq<byte>>)
    ensures r.Some? <==> IsLatin1(s)
    ensures r.Some? ==> |r.value| == |s| && forall i :: 0 <= i < |s| ==> r.value[i] as int == s[i] as int
  {
    if IsLatin1(s) then Some(seq(|s|, i requires 0 <= i < |s| => s[i] as int as byte)) else None
  }

  /** `b.decode('latin1')`, which never raises. */
  function Latin1Decode(b: seq<byte>): seq<char> {
    seq(|b|, i requires 0 <= i < |b| => b[i] as int as char)
  }

  /** Latin-1 is lossless on the code points it can encode. */
  lemma Latin1RoundTrip(s: string)
    requires IsLatin1(s)
    ensures Latin1Decode(Latin1Encode(s).value) == s
  {
  }

  /** The first candidate whose decode succeeds and contains a CJK ideograph. */
  function FirstCjkDecode(codec: Codec, bytes: seq<byte>, candidates: seq<Encoding>): (r: Option<string>)
    ensures r.Some? ==> HasCjk(r.value)
    ensures r.Some? <==> exists i :: 0 <= i < |candidates| && CjkDecode(codec, bytes, candidates[i])
    ensures forall i :: (0 <= i < |candidates| && CjkDecode(codec, bytes, candidates[i])
                         && (forall j :: 0 <= j < i ==> !CjkDecode(codec, bytes, candidates[j])))
                        ==> r == codec.decode(candidates[i], bytes)
    decreases |candidates|
  {
    if candidates == [] then None
    else if CjkDecode(codec, bytes, candidates[0]) then codec.decode(candidates[0], bytes)
    else
      var rest := FirstCjkDecode(codec, bytes, candidates[1..]);
      assert forall i :: 1 <= i < |candidates| ==> candidates[i] == candidates[1..][i - 1];
      rest
  }

  /** Decoding `bytes` with `enc` succeeds and yields at least one CJK ideograph. */
  predicate CjkDecode(codec: Codec, bytes: seq<byte>, enc: Encoding) {
    codec.decode(enc, bytes).Some? && HasCjk(codec.decode(enc, bytes).value)
  }

  /**
   * `decode_field`: re-encode the cell text as Latin-1 and take the first of big5, cp950, utf-8
   * whose decode contains a CJK ideograph; otherwise (or when Latin-1 cannot encode it) the text as given.
   */
  function DecodeField(codec: Codec, raw: string): (r: string)
    ensures r == raw || HasCjk(r)
  {
    match Latin1Encode(raw)
    case None => raw
    case Some(bytes) =>
      match FirstCjkDecode(codec, bytes, FieldEncodings)
      case Some(decoded) => decoded
      case None => raw
  }

  /** Text that already holds Chinese is never re-decoded: no CJK ideograph fits in Latin-1. */
  lemma DecodeFieldKeepsChinese(codec: Codec, raw: string)
    requires HasCjk(raw)
    ensures DecodeField(codec, raw) == raw
  {
    var i :| 0 <= i < |raw| && IsCjk(raw[i]);
    assert raw[i] as int >= 256;
    assert !IsLatin1(raw);
  }

  /** Decoding a field twice gives the same as decoding it once. */
  lemma DecodeFieldIdempotent(codec: Codec, raw: string)
    ensures DecodeField(codec, DecodeField(codec, raw)) == DecodeField(codec, raw)
  {
    var r := DecodeField(codec, raw);
    if r != raw {
      DecodeFieldKeepsChinese(codec, r);
    }
  }

  /**
   * The body-decoding loop over `candidates`: `last` is the text of the last decode that
   * succeeded so far; a decode containing CJK ends the scan.
   */
  function ScanBody(codec: Codec, bytes: seq<byte>, candidates: seq<Encoding>, last: Option<string>): (r: Option<string>)
    ensures r == last || exists i :: 0 <= i < |candidates| && codec.decode(candidates[i], bytes) == r
    ensures last.Some? ==> r.Some?
    decreases |candidates|
  {
    if candidates == [] then last
    else
      assert forall j :: 0 <= j < |candidates| - 1 ==> candidates[1..][j] == candidates[j + 1];
      match codec.decode(candidates[0], bytes)
      case None => ScanBody(codec, bytes, candidates[1..], last)
      case Some(d) =>
        if HasCjk(d) then Some(d) else ScanBody(codec, bytes, candidates[1..], Some(d))
  }

  /**
   * The text the course-table fetch works on, decoded from the raw response body: one of the
   * candidates' decodes, or the replacing big5 decode.
   */
  function DecodedBody(codec: Codec, bytes: seq<byte>): (r: string)
    ensures r == codec.decodeBig5Replacing(bytes)
      || exists i :: 0 <= i < |BodyEncodings| && codec.decode(BodyEncodings[i], bytes) == Some(r)
  {
    match ScanBody(codec, bytes, BodyEncodings, None)
    case Some(text) => text
    case None => codec.decodeBig5Replacing(bytes)
  }

  lemma {:induction false} ScanFirstCjk(codec: Codec, bytes: seq<byte>, candidates: seq<Encoding>, last: Option<string>, i: nat)
    requires i < |candidates| && CjkDecode(codec, bytes, candidates[i])
    requires forall j :: 0 <= j < i ==> !CjkDecode(codec, bytes, candidates[j])
    ensures ScanBody(codec, bytes, candidates, last) == codec.decode(candidates[i], bytes)
    decreases i
  {
    if i > 0 {
      assert !CjkDecode(codec, bytes, candidates[0]);
      var next := match codec.decode(candidates[0], bytes) case None => last case Some(d) => Some(d);
      assert ScanBody(codec, bytes, candidates, last) == ScanBody(codec, bytes, candidates[1..], next);
      ScanFirstCjk(codec, bytes, candidates[1..], next, i - 1);
    }
  }

  lemma {:induction false} ScanWithoutCjk(codec: Codec, bytes: seq<byte>, candidates: seq<Encoding>, last: Option<string>)
    requires forall j :: 0 <= j < |candidates| ==> !CjkDecode(codec, bytes, candidates[j])
    ensures var r := ScanBody(codec, bytes, candidates, last);
      (forall j :: 0 <= j < |candidates| ==> codec.decode(candidates[j], bytes).None?) ==> r == last
    ensures var r := ScanBody(codec, bytes, candidates, last);
      forall j :: 0 <= j < |candidates| && codec.decode(candidates[j], bytes).Some?
        && (forall l :: j < l < |candidates| ==> codec.decode(candidates[l], bytes).None?)
        ==> r == codec.decode(candidates[j], bytes)
    decreases |candidates|
  {
    if candidates != [] {
      var next := match codec.decode(candidates[0], bytes) case None => last case Some(d) => Some(d);
      assert !CjkDecode(codec, bytes, candidates[0]);
      assert ScanBody(codec, bytes, candidates, last) == ScanBody(codec, bytes, candidates[1..], next);
      ScanWithoutCjk(codec, bytes, candidates[1..], next);
      assert forall j :: 1 <= j < |candidates| ==> candidates[j] == candidates[1..][j - 1];
    }
  }

  /** The body decodes with the first candidate whose text contains Chinese. */
  lemma BodyPrefersFirstCjk(codec: Codec, bytes: seq<byte>, i: nat)
    requires i < |BodyEncodings| && CjkDecode(codec, bytes, BodyEncodings[i])
    requires forall j :: 0 <= j < i ==> !CjkDecode(codec, bytes, BodyEncodings[j])
    ensures Some(DecodedBody(codec, bytes)) == codec.decode(BodyEncodings[i], bytes)
  {
    ScanFirstCjk(codec, bytes, BodyEncodings, None, i);
  }

  /** With no Chinese in any decode, the body is the last candidate that decoded without error. */
  lemma BodyKeepsLastCleanDecode(codec: Codec, bytes: seq<byte>, i: nat)
    requires forall j :: 0 <= j < |BodyEncodings| ==> !CjkDecode(codec, bytes, BodyEncodings[j])
    requires i < |BodyEncodings| && codec.decode(BodyEncodings[i], bytes).Some?
    requires forall l :: i < l < |BodyEncodings| ==> codec.decode(BodyEncodings[l], bytes).None?
    ensures Some(DecodedBody(codec, bytes)) == codec.decode(BodyEncodings[i], bytes)
  {
    ScanWithoutCjk(codec, bytes, BodyEncodings, None);
  }

  /** The replacing big5 decode is used exactly when every candidate raised. */
  lemma BodyReplacesOnlyWhenAllFail(codec: Codec, bytes: seq<byte>)
    ensures (forall j :: 0 <= j < |BodyEncodings| ==> codec.decode(BodyEncodings[j], bytes).None?)
      ==> DecodedBody(codec, bytes) == codec.decodeBig5Replacing(bytes)
    ensures (exists j :: 0 <= j < |BodyEncodings| && codec.decode(BodyEncodings[j], bytes).Some?)
      ==> exists j :: 0 <= j < |BodyEncodings| && codec.decode(BodyEncodings[j], bytes) == Some(DecodedBody(codec, bytes))
  {
    if exists j :: 0 <= j < |BodyEncodings| && CjkDecode(codec, bytes, BodyEncodings[j]) {
      var i :| 0 <= i < |BodyEncodings| && CjkDecode(codec, bytes, BodyEncodings[i]);
      while exists j :: 0 <= j < i && CjkDecode(codec, bytes, BodyEncodings[j])
        invariant 0 <= i < |BodyEncodings| && CjkDecode(codec, bytes, BodyEncodings[i])
        decreases i
      {
        var k :| 0 <= k < i && CjkDecode(codec, bytes, BodyEncodings[k]);
        i := k;
      }
      BodyPrefersFirstCjk(codec, bytes, i);
    } else if exists j :: 0 <= j < |BodyEncodings| && codec.decode(BodyEncodings[j], bytes).Some? {
      var i := LastClean(codec, bytes);
      BodyKeepsLastCleanDecode(codec, bytes, i);
    } else {
      ScanWithoutCjk(codec, bytes, BodyEncodings, None);
    }
  }

  /** The index of the last candidate that decodes without error, when there is one. */
  function LastClean(codec: Codec, bytes: seq<byte>): (i: nat)
    requires exists j :: 0 <= j < |BodyEncodings| && codec.decode(BodyEncodings[j], bytes).Some?
    ensures i < |BodyEncodings| && codec.decode(BodyEncodings[i], bytes).Some?
    ensures forall l :: i < l < |BodyEncodings| ==> codec.decode(BodyEncodings[l], bytes).None?
  {
    if codec.decode(Gbk, bytes).Some? then 3
    else if codec.decode(Utf8, bytes).Some? then 2
    else if codec.decode(Cp950, bytes).Some? then 1
    else 0
  }

  /**
   * The body-decoding loop of the course-table fetch: try each candidate in order, keep the
   * last text that decoded, stop at the first one containing Chinese, and fall back to the
   * replacing big5 decode only when nothing decoded.
   */
  method DecodeBody(codec: Codec, bytes: seq<byte>) returns (text: string)
    ensures text == DecodedBody(codec, bytes)
  {
    var decoded: Option<string> := None;
    var found := false;
    var i := 0;
    while i < |BodyEncodings| && !found
      invariant 0 <= i <= |BodyEncodings|
      invariant found ==> decoded.Some? && ScanBody(codec, bytes, BodyEncodings, None) == decoded
      invariant !found ==> ScanBody(codec, bytes, BodyEncodings, None) == ScanBody(codec, bytes, BodyEncodings[i..], decoded)
    {
      var attempt := codec.decode(BodyEncodings[i], bytes);
      assert BodyEncodings[i..][1..] == BodyEncodings[i + 1..];
      if attempt.Some? {
        decoded := attempt;
        if HasCjk(attempt.value) {
          found := true;
        }
      }
      i := i + 1;
    }
    if decoded.None? {
      text := codec.decodeBig5Replacing(bytes);
    } else {
      text := decoded.value;
    }
  }
}
