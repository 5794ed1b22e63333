/** Undoing a latin-1 misreading of UTF-8 bytes, in one string and in place through a parsed JSON tree. */
module Mojibake {
  import opened Options
  import opened Utf8

  // ----- one string -----

  /** [C2-F4][80-BF] or a lone [80-9F], anywhere in the text. */
  predicate SignatureAt(v: Text, k: nat)
    requires k < |v|
  {
    || (k + 1 < |v| && 0xC2 <= v[k] <= 0xF4 && 0x80 <= v[k + 1] <= 0xBF)
    || 0x80 <= v[k] <= 0x9F
  }

  predicate Signature(v: Text) {
    exists k :: 0 <= k < |v| && SignatureAt(v, k)
  }

  /** str.encode("latin-1"): defined on code points below 256. */
  function Latin1(v: Text): (b: Option<Bytes>)
    ensures b.Some? <==> forall k :: 0 <= k < |v| ==> v[k] < 0x100
    ensures b.Some? ==> b.value == v
  {
    if forall k :: 0 <= k < |v| ==> v[k] < 0x100 then Some(seq(|v|, k requires 0 <= k < |v| => v[k])) else None
  }

  function Demojibake(v: Text): Text {
    if !Signature(v) then v
    else match Latin1(v)
      case None => v
      case Some(b) => match Decode(b) case None => v case Some(w) => w
  }

  /** A text's UTF-8 bytes read as latin-1. */
  function Misread(w: Text): Text {
    EncodeScalars(w)
  }

  predicate Ascii(w: Text) {
    forall k :: 0 <= k < |w| ==> w[k] < 0x80
  }

  lemma {:induction false} MisreadAscii(w: Text)
    requires Ascii(w)
    ensures Misread(w) == w && !Signature(w)
  {
    if w != [] {
      MisreadAscii(w[1..]);
      assert w == [w[0]] + w[1..];
    }
  }

  /** A character beyond ASCII leaves a lead byte followed by a continuation byte. */
  lemma {:induction false} MisreadSigned(w: Text)
    requires Scalars(w) && !Ascii(w)
    ensures Signature(Misread(w)) && Misread(w) != w
  {
    var e, rest := EncodeChar(w[0]), Misread(w[1..]);
    if w[0] >= 0x80 {
      LeadThenContinuation(w[0]);
      assert SignatureAt(e + rest, 0);
      MisreadLonger(w);
    } else {
      MisreadSigned(w[1..]);
      var k :| 0 <= k < |rest| && SignatureAt(rest, k);
      assert (e + rest)[k + 1] == rest[k] && SignatureAt(e + rest, k + 1);
      MisreadLonger(w);
    }
  }

  lemma LeadThenContinuation(c: CodePoint)
    requires Scalar(c) && c >= 0x80
    ensures |EncodeChar(c)| >= 2 && 0xC2 <= EncodeChar(c)[0] <= 0xF4 && 0x80 <= EncodeChar(c)[1] <= 0xBF
  {
  }

  lemma {:induction false} MisreadLonger(w: Text)
    requires Scalars(w)
    ensures |Misread(w)| >= |w| && (!Ascii(w) ==> |Misread(w)| > |w|)
  {
    if w != [] {
      MisreadLonger(w[1..]);
      if w[0] >= 0x80 {
        LeadThenContinuation(w[0]);
      }
    }
  }

  /** Repairing the misreading of any surrogate-free text gives the text back. */
  lemma RepairUndoesMisreading(w: Text)
    requires Scalars(w)
    ensures Demojibake(Misread(w)) == w
  {
    if Ascii(w) {
      MisreadAscii(w);
    } else {
      MisreadSigned(w);
      DecodeEncoded(w);
      assert Latin1(Misread(w)) == Some(EncodeScalars(w));
    }
  }

  ghost predicate IsMisreading(v: Text) {
    exists w :: MisreadingOf(v, w)
  }

  predicate MisreadingOf(v: Text, w: Text) {
    Scalars(w) && !Ascii(w) && v == Misread(w)
  }

  /** A text is changed exactly when it is the misreading of a text beyond ASCII, and then into that text. */
  lemma RepairChangesExactlyMisreadings(v: Text)
    ensures Demojibake(v) != v <==> IsMisreading(v)
    ensures Demojibake(v) != v ==> Scalars(Demojibake(v)) && v == Misread(Demojibake(v))
  {
    if Demojibake(v) != v {
      var b := Latin1(v).value;
      EncodeDecoded(b);
      var w := Demojibake(v);
      if Ascii(w) {
        MisreadAscii(w);
      }
      assert MisreadingOf(v, w);
    }
    if IsMisreading(v) {
      var w :| MisreadingOf(v, w);
      MisreadSigned(w);
      RepairUndoesMisreading(w);
    }
  }

  function MisreadTimes(w: Text, n: nat): Text {
    if n == 0 then w else Misread(MisreadTimes(w, n - 1))
  }

  function RepairTimes(v: Text, n: nat): Text
    decreases n
  {
    if n == 0 then v else RepairTimes(Demojibake(v), n - 1)
  }

  lemma {:induction false} MisreadingsAreScalars(w: Text, n: nat)
    requires Scalars(w)
    ensures Scalars(MisreadTimes(w, n))
  {
    if n > 0 {
      MisreadingsAreScalars(w, n - 1);
    }
  }

  /** Each pass undoes one layer: text garbled n times needs n repairs. */
  lemma {:induction false} RepairsUndoLayers(w: Text, n: nat)
    requires Scalars(w)
    ensures RepairTimes(MisreadTimes(w, n), n) == w
  {
    if n > 0 {
      MisreadingsAreScalars(w, n - 1);
      RepairUndoesMisreading(MisreadTimes(w, n - 1));
      RepairsUndoLayers(w, n - 1);
    }
  }

  ghost predicate GarbledTwice(v: Text) {
    exists w :: MisreadingOf(v, Misread(w)) && Scalars(w) && !Ascii(w)
  }

  /** Repair is idempotent on a text exactly when the text was not garbled twice. */
  lemma IdempotentExactly(v: Text)
    ensures Demojibake(Demojibake(v)) == Demojibake(v) <==> !GarbledTwice(v)
  {
    var once := Demojibake(v);
    RepairChangesExactlyMisreadings(v);
    RepairChangesExactlyMisreadings(once);
    if Demojibake(once) != once {
      var w :| MisreadingOf(once, w);
      MisreadSigned(w);
      assert Scalars(once) && v == Misread(once);
      if Ascii(once) { MisreadAscii(once); }
      assert MisreadingOf(v, Misread(w));
    }
    if GarbledTwice(v) {
      var w :| MisreadingOf(v, Misread(w)) && Scalars(w) && !Ascii(w);
      RepairUndoesMisreading(Misread(w));
      assert MisreadingOf(once, w);
    }
  }

  /** "é" garbled twice: the first repair still leaves garbled text. */
  lemma NotIdempotent()
    ensures exists v :: Demojibake(Demojibake(v)) != Demojibake(v)
  {
    var w: Text := [0xE9];
    assert w[0] == 0xE9;
    MisreadSigned(w);
    MisreadLonger(w);
    var once := Misread(w);
    assert w[1..] == [];
    assert once == [0xC3, 0xA9];
    assert MisreadingOf(Misread(once), once);
    IdempotentExactly(Misread(once));
  }
}
