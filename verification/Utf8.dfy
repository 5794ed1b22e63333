/**
  UTF-8 as sections 3 and 4 of RFC 3629 define it: shortest forms only, no surrogates, nothing above
  U+10FFFF. Text is a sequence of code points, as in a Python `str`, and may hold lone surrogates.
 */
module Utf8 {
  import opened Options

  type Byte = x: int | 0 <= x < 0x100
  type CodePoint = x: int | 0 <= x < 0x11_0000
  type Bytes = seq<Byte>
  type Text = seq<CodePoint>

  predicate Scalar(c: CodePoint) {
    c < 0xD800 || 0xE000 <= c
  }

  predicate Scalars(t: Text) {
    forall k :: 0 <= k < |t| ==> Scalar(t[k])
  }

  function EncodeChar(c: CodePoint): (b: Bytes)
    ensures 1 <= |b| <= 4
  {
    if c < 0x80 then [c]
    else if c < 0x800 then [0xC0 + c / 64, 0x80 + c % 64]
    else if c < 0x1_0000 then [0xE0 + c / 64 / 64, 0x80 + c / 64 % 64, 0x80 + c % 64]
    else [0xF0 + c / 64 / 64 / 64, 0x80 + c / 64 / 64 % 64, 0x80 + c / 64 % 64, 0x80 + c % 64]
  }

  function EncodeScalars(t: Text): Bytes {
    if t == [] then [] else EncodeChar(t[0]) + EncodeScalars(t[1..])
  }

  /** str.encode("utf-8"): a lone surrogate is an error. */
  function Encode(t: Text): Option<Bytes> {
    if Scalars(t) then Some(EncodeScalars(t)) else None
  }

  // ----- decoding -----

  datatype Head = Char(c: CodePoint, width: nat) | Incomplete | Invalid

  predicate Continuation(b: Byte) {
    0x80 <= b < 0xC0
  }

  /** Which second bytes a lead byte admits: this is where overlong forms and surrogates are refused. */
  predicate SecondOk(lead: Byte, second: Byte) {
    && Continuation(second)
    && (lead == 0xE0 ==> 0xA0 <= second)
    && (lead == 0xED ==> second < 0xA0)
    && (lead == 0xF0 ==> 0x90 <= second)
    && (lead == 0xF4 ==> second < 0x90)
  }

  function Width(lead: Byte): nat {
    if lead < 0x80 then 1
    else if 0xC2 <= lead < 0xE0 then 2
    else if 0xE0 <= lead < 0xF0 then 3
    else if 0xF0 <= lead <= 0xF4 then 4
    else 0
  }

  /** Six more payload bits. */
  function Append(high: int, b: Byte): int {
    high * 64 + (b - 0x80)
  }

  lemma AppendSplits(high: int, b: Byte)
    requires Continuation(b)
    ensures Append(high, b) / 64 == high && Append(high, b) % 64 == b - 0x80
  {
  }

  lemma SplitAppends(c: nat)
    ensures 0 <= c % 64 < 64 && Append(c / 64, 0x80 + c % 64) == c
  {
  }

  /** The first character of a non-empty byte string, or why there is none yet. */
  function Read(b: Bytes): (h: Head)
    requires b != []
    ensures h.Char? ==> 1 <= h.width <= |b|
  {
    var w := Width(b[0]);
    if w == 0 then Invalid
    else if w == 1 then Char(b[0], 1)
    else if |b| == 1 then Incomplete
    else if !SecondOk(b[0], b[1]) then Invalid
    else if w == 2 then Char(Append(b[0] - 0xC0, b[1]), 2)
    else if |b| == 2 then Incomplete
    else if !Continuation(b[2]) then Invalid
    else if w == 3 then Char(Append(Append(b[0] - 0xE0, b[1]), b[2]), 3)
    else if |b| == 3 then Incomplete
    else if !Continuation(b[3]) then Invalid
    else Char(Append(Append(Append(b[0] - 0xF0, b[1]), b[2]), b[3]), 4)
  }

  /** bytes.decode("utf-8"), strict. */
  function Decode(b: Bytes): (t: Option<Text>)
    decreases |b|
  {
    if b == [] then Some([])
    else match Read(b)
      case Char(c, w) =>
        (match Decode(b[w..])
         case Some(rest) => Some([c] + rest)
         case None => None)
      case _ => None
  }

  lemma ReadEncoded(c: CodePoint, rest: Bytes)
    requires Scalar(c)
    ensures Read(EncodeChar(c) + rest) == Char(c, |EncodeChar(c)|)
  {
    SplitAppends(c);
    SplitAppends(c / 64);
    SplitAppends(c / 64 / 64);
  }

  lemma ReadIsEncoding2(b0: Byte, b1: Byte)
    requires Width(b0) == 2 && SecondOk(b0, b1)
    ensures 0 <= Append(b0 - 0xC0, b1) < 0x11_0000 && Scalar(Append(b0 - 0xC0, b1))
    ensures EncodeChar(Append(b0 - 0xC0, b1)) == [b0, b1]
  {
    AppendSplits(b0 - 0xC0, b1);
  }

  lemma ReadIsEncoding3(b0: Byte, b1: Byte, b2: Byte)
    requires Width(b0) == 3 && SecondOk(b0, b1) && Continuation(b2)
    ensures var c := Append(Append(b0 - 0xE0, b1), b2); 0 <= c < 0x11_0000 && Scalar(c) && EncodeChar(c) == [b0, b1, b2]
  {
    AppendSplits(b0 - 0xE0, b1);
    AppendSplits(Append(b0 - 0xE0, b1), b2);
  }

  lemma ReadIsEncoding4(b0: Byte, b1: Byte, b2: Byte, b3: Byte)
    requires Width(b0) == 4 && SecondOk(b0, b1) && Continuation(b2) && Continuation(b3)
    ensures var c := Append(Append(Append(b0 - 0xF0, b1), b2), b3);
            0 <= c < 0x11_0000 && Scalar(c) && EncodeChar(c) == [b0, b1, b2, b3]
  {
    AppendSplits(b0 - 0xF0, b1);
    AppendSplits(Append(b0 - 0xF0, b1), b2);
    AppendSplits(Append(Append(b0 - 0xF0, b1), b2), b3);
  }

  lemma ReadIsEncoding(b: Bytes)
    requires b != [] && Read(b).Char?
    ensures Scalar(Read(b).c) && EncodeChar(Read(b).c) == b[..Read(b).width]
  {
    match Read(b).width {
      case 1 =>
      case 2 => ReadIsEncoding2(b[0], b[1]);
      case 3 => ReadIsEncoding3(b[0], b[1], b[2]);
      case _ => ReadIsEncoding4(b[0], b[1], b[2], b[3]);
    }
  }

  /** Byte by byte, the first difference decides; a proper beginning comes first. */
  predicate Before(a: Bytes, b: Bytes) {
    b != [] && (a == [] || a[0] < b[0] || (a[0] == b[0] && Before(a[1..], b[1..])))
  }

  /** How many bytes a character takes, by the ranges of the table in section 3 of RFC 3629. */
  lemma EncodedLength(c: CodePoint)
    ensures |EncodeChar(c)| == 1 <==> c <= 0x7F
    ensures |EncodeChar(c)| == 2 <==> 0x80 <= c <= 0x7FF
    ensures |EncodeChar(c)| == 3 <==> 0x800 <= c <= 0xFFFF
    ensures |EncodeChar(c)| == 4 <==> 0x1_0000 <= c
    ensures c <= 0x7F ==> EncodeChar(c) == [c]
  {
  }

  /** Encoding keeps the order of code points, as section 1 of RFC 3629 promises. */
  lemma EncodingKeepsOrder(c: CodePoint, d: CodePoint)
    requires c < d
    ensures Before(EncodeChar(c), EncodeChar(d))
  {
    var a, b := EncodeChar(c), EncodeChar(d);
    if |a| != |b| {
      LongerLeads(c, d);
    } else {
      match |a|
      case 1 =>
      case 2 => assert Before(a[1..], b[1..]) <==> a[1] < b[1];
      case 3 => SameLength3(c, d);
      case _ => SameLength4(c, d);
    }
  }

  lemma LongerLeads(c: CodePoint, d: CodePoint)
    requires c < d && |EncodeChar(c)| != |EncodeChar(d)|
    ensures EncodeChar(c)[0] < EncodeChar(d)[0]
  {
  }

  lemma Differs(a: Bytes, b: Bytes, n: nat)
    requires n < |a| && n < |b| && a[n] < b[n] && forall i :: 0 <= i < n ==> a[i] == b[i]
    ensures Before(a, b)
    decreases n
  {
    if n > 0 {
      Differs(a[1..], b[1..], n - 1);
    }
  }

  lemma SameLength3(c: CodePoint, d: CodePoint)
    requires c < d && |EncodeChar(c)| == 3 && |EncodeChar(d)| == 3
    ensures Before(EncodeChar(c), EncodeChar(d))
  {
    var a, b := EncodeChar(c), EncodeChar(d);
    if c / 64 / 64 < d / 64 / 64 {
      Differs(a, b, 0);
    } else if c / 64 < d / 64 {
      Differs(a, b, 1);
    } else {
      Differs(a, b, 2);
    }
  }

  lemma SameLength4(c: CodePoint, d: CodePoint)
    requires c < d && |EncodeChar(c)| == 4 && |EncodeChar(d)| == 4
    ensures Before(EncodeChar(c), EncodeChar(d))
  {
    var a, b := EncodeChar(c), EncodeChar(d);
    if c / 64 / 64 / 64 < d / 64 / 64 / 64 {
      Differs(a, b, 0);
    } else if c / 64 / 64 < d / 64 / 64 {
      Differs(a, b, 1);
    } else if c / 64 < d / 64 {
      Differs(a, b, 2);
    } else {
      Differs(a, b, 3);
    }
  }

  /** Once a character or an error is read, more bytes do not change it. */
  lemma ReadStable(b: Bytes, more: Bytes)
    requires b != [] && !Read(b).Incomplete?
    ensures Read(b + more) == Read(b)
  {
  }

  ghost predicate StartsSome(b: Bytes) {
    exists c: CodePoint :: Scalar(c) && b < EncodeChar(c)
  }

  /** Bytes are held back exactly when they are a proper beginning of some character. */
  lemma IncompleteExactly(b: Bytes)
    requires b != []
    ensures Read(b).Incomplete? <==> StartsSome(b)
  {
    if Read(b).Incomplete? {
      var c := Completion(b);
      assert Scalar(c) && b < EncodeChar(c);
    }
    if StartsSome(b) {
      var c: CodePoint :| Scalar(c) && b < EncodeChar(c);
      var e := EncodeChar(c);
      assert b + e[|b|..] == e && e + [] == e;
      ReadEncoded(c, []);
      if !Read(b).Incomplete? {
        ReadStable(b, e[|b|..]);
      }
    }
  }

  /** The smallest second byte a lead byte admits. */
  function LowSecond(lead: Byte): (second: Byte)
    ensures Width(lead) >= 2 ==> SecondOk(lead, second)
  {
    if lead == 0xE0 then 0xA0 else if lead == 0xF0 then 0x90 else 0x80
  }

  lemma Completion(b: Bytes) returns (c: CodePoint)
    requires b != [] && Read(b).Incomplete?
    ensures Scalar(c) && b < EncodeChar(c)
  {
    var second := if |b| > 1 then b[1] else LowSecond(b[0]);
    match Width(b[0]) {
      case 2 =>
        ReadIsEncoding2(b[0], second);
        c := Append(b[0] - 0xC0, second);
      case 3 =>
        ReadIsEncoding3(b[0], second, 0x80);
        c := Append(Append(b[0] - 0xE0, second), 0x80);
      case _ =>
        c := Completion4(b, second);
    }
  }

  lemma Completion4(b: Bytes, second: Byte) returns (c: CodePoint)
    requires b != [] && Read(b).Incomplete? && Width(b[0]) == 4 && SecondOk(b[0], second)
      && (|b| > 1 ==> second == b[1])
    ensures Scalar(c) && b < EncodeChar(c)
  {
    var third: Byte := if |b| > 2 then b[2] else 0x80;
    ReadIsEncoding4(b[0], second, third, 0x80);
    c := Append(Append(Append(b[0] - 0xF0, second), third), 0x80);
  }

  lemma DecodeFront(c: CodePoint, rest: Bytes)
    requires Scalar(c) && Decode(rest).Some?
    ensures Decode(EncodeChar(c) + rest) == Some([c] + Decode(rest).value)
  {
    var e := EncodeChar(c);
    ReadEncoded(c, rest);
    assert (e + rest)[|e|..] == rest;
  }

  lemma {:induction false} DecodeEncoded(t: Text)
    requires Scalars(t)
    ensures Decode(EncodeScalars(t)) == Some(t)
  {
    if t != [] {
      DecodeEncoded(t[1..]);
      DecodeFront(t[0], EncodeScalars(t[1..]));
      assert [t[0]] + t[1..] == t;
    }
  }

  lemma EncodeFront(c: CodePoint, rest: Text)
    ensures EncodeScalars([c] + rest) == EncodeChar(c) + EncodeScalars(rest)
  {
    assert ([c] + rest)[1..] == rest;
  }

  lemma DecodeStep(b: Bytes) returns (c: CodePoint, w: nat, rest: Text)
    requires b != [] && Decode(b).Some?
    ensures 0 < w <= |b| && Scalar(c) && EncodeChar(c) == b[..w]
    ensures Decode(b[w..]) == Some(rest) && Decode(b) == Some([c] + rest)
  {
    ReadIsEncoding(b);
    c, w := Read(b).c, Read(b).width;
    rest := Decode(b[w..]).value;
  }

  lemma {:induction false} EncodeDecoded(b: Bytes)
    requires Decode(b).Some?
    ensures Scalars(Decode(b).value) && EncodeScalars(Decode(b).value) == b
    decreases |b|
  {
    if b != [] {
      var c, w, rest := DecodeStep(b);
      EncodeDecoded(b[w..]);
      EncodeFront(c, rest);
      assert b == b[..w] + b[w..];
    }
  }

  /** Decoding and encoding are inverse on exactly the valid byte strings and the surrogate-free texts. */
  lemma RoundTrip(b: Bytes, t: Text)
    ensures Decode(b) == Some(t) <==> Encode(t) == Some(b)
  {
    if Decode(b) == Some(t) {
      EncodeDecoded(b);
    }
    if Encode(t) == Some(b) {
      DecodeEncoded(t);
    }
  }

  // ----- decoding in pieces -----

  /** What feeding bytes to an incremental decoder gives: decoded text and the bytes held back, or an error. */
  datatype Fed = Text(text: Text, rest: Bytes) | Error

  function Feed(b: Bytes): (f: Fed)
    decreases |b|
  {
    if b == [] then Text([], [])
    else match Read(b)
      case Char(c, w) => Prepend([c], Feed(b[w..]))
      case Incomplete => Text([], b)
      case Invalid => Error
  }

  function Prepend(t: Text, f: Fed): Fed {
    if f.Error? then f else Text(t + f.text, f.rest)
  }

  /** Feeding in two steps, carrying the held-back bytes over, is feeding at once. */
  lemma {:induction false} FeedAppend(b: Bytes, more: Bytes)
    ensures Feed(b).Error? ==> Feed(b + more).Error?
    ensures Feed(b).Text? ==> Feed(b + more) == Prepend(Feed(b).text, Feed(Feed(b).rest + more))
    decreases |b|
  {
    if b == [] {
      assert b + more == more;
    } else if !Read(b).Incomplete? {
      ReadStable(b, more);
      if Read(b).Char? {
        var c, w := Read(b).c, Read(b).width;
        assert (b + more)[w..] == b[w..] + more;
        FeedAppend(b[w..], more);
        if Feed(b[w..]).Text? {
          var f := Feed(Feed(b[w..]).rest + more);
          assert f.Text? ==> [c] + (Feed(b[w..]).text + f.text) == ([c] + Feed(b[w..]).text) + f.text;
        }
      }
    }
  }

  /** The final check: decoding succeeded exactly if no error arose and nothing is held back. */
  lemma {:induction false} FeedDecodes(b: Bytes)
    ensures Decode(b).Some? <==> Feed(b).Text? && Feed(b).rest == []
    ensures Decode(b).Some? ==> Feed(b).text == Decode(b).value
    decreases |b|
  {
    if b != [] && Read(b).Char? {
      FeedDecodes(b[Read(b).width..]);
    }
  }
}
