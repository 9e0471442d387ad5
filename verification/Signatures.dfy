/** The 65-byte signature form [R || S || V] and the integers it stands for: two
    encoders and three decoders. */
module Signatures {
  import opened Bytes

  datatype Signature = Signature(r: nat, s: nat, v: nat)

  /** Copies a big integer's bytes to the end of a zeroed 32-byte buffer; panics if they do not fit. */
  function Padded(n: nat): Option<bytes> {
    if |MinBE(n)| > 32 then None else Some(PadLeft(MinBE(n), 32))
  }

  /** Signature.ToBytes: V is cut to its low byte. */
  function ToBytes(sig: Signature): Option<bytes> {
    match (Padded(sig.r), Padded(sig.s))
    case (Some(r), Some(s)) => Some(r + s + [sig.v % 256])
    case _ => None
  }

  /** SignatureToBytes: V is given as a byte. */
  function SignatureToBytes(r: nat, s: nat, v: byte): Option<bytes> {
    match (Padded(r), Padded(s))
    case (Some(rb), Some(sb)) => Some(rb + sb + [v])
    case _ => None
  }

  /** DeserializeSig: V from the last byte as an integer. */
  function DeserializeSig(bs: bytes): Result<Signature> {
    if |bs| != 65 then Err else Ok(Signature(FromBE(bs[..32]), FromBE(bs[32..64]), bs[64]))
  }

  /** txSigner.SignatureValues: V from a one-byte slice of the last byte. */
  function SignatureValues(bs: bytes): Result<(nat, nat, nat)> {
    if |bs| != 65 then Err else Ok((FromBE(bs[..32]), FromBE(bs[32..64]), FromBE([bs[64]])))
  }

  /** AddSignatureToTx: V from everything after the first 64 bytes. */
  function AddSignatureToTx(bs: bytes): Result<(nat, nat, nat)> {
    if |bs| != 65 then Err else Ok((FromBE(bs[64..]), FromBE(bs[..32]), FromBE(bs[32..64])))
  }

  lemma OneByte(b: byte)
    ensures FromBE([b]) == b
  {
    assert [b][..0] == [];
    assert FromBE([]) == 0;
  }

  lemma PaddedFits(n: nat)
    ensures Padded(n).Some? <==> n < Pow256(32)
    ensures Padded(n).Some? ==> FromBE(Padded(n).value) == n && |Padded(n).value| == 32
  {
    MinBELength(n, 32);
    if |MinBE(n)| <= 32 {
      FromBEPadded(MinBE(n), 32);
      FromMinBE(n);
    }
  }

  lemma PaddedRestores(bs: bytes)
    requires |bs| == 32
    ensures Padded(FromBE(bs)) == Some(bs)
  {
    ToFromBE(bs);
    PaddedFits(FromBE(bs));
    var back := Padded(FromBE(bs)).value;
    ToFromBE(back);
  }

  /** Reading back what was written gives the signature exactly if R and S fit 32 bytes and V fits one. */
  lemma ReadsBack(sig: Signature)
    ensures ToBytes(sig).Some? <==> sig.r < Pow256(32) && sig.s < Pow256(32)
    ensures ToBytes(sig).Some? && DeserializeSig(ToBytes(sig).value) == Ok(sig)
      <==> sig.r < Pow256(32) && sig.s < Pow256(32) && sig.v < 256
  {
    hide Padded, FromBE, Pow256;
    PaddedFits(sig.r);
    PaddedFits(sig.s);
    if sig.r < Pow256(32) && sig.s < Pow256(32) {
      var r, s, bs := Padded(sig.r).value, Padded(sig.s).value, ToBytes(sig).value;
      assert bs[..32] == r && bs[32..64] == s && bs[64] == sig.v % 256;
    }
  }

  /** Writing what was read gives the same 65 bytes; other lengths are refused. */
  lemma WritesBack(bs: bytes)
    ensures DeserializeSig(bs).Ok? <==> |bs| == 65
    ensures |bs| == 65 ==> ToBytes(DeserializeSig(bs).value) == Some(bs)
  {
    if |bs| == 65 {
      PaddedRestores(bs[..32]);
      PaddedRestores(bs[32..64]);
      assert bs == bs[..32] + bs[32..64] + [bs[64]];
    }
  }

  /** Both encoders write R, then S, then V, each integer big-endian. */
  lemma Layout(sig: Signature)
    requires ToBytes(sig).Some?
    ensures var bs := ToBytes(sig).value;
      |bs| == 65 && FromBE(bs[..32]) == sig.r && FromBE(bs[32..64]) == sig.s && bs[64] == sig.v % 256
  {
    hide FromBE, Pow256, Padded;
    PaddedFits(sig.r);
    PaddedFits(sig.s);
    var r, s, bs := Padded(sig.r).value, Padded(sig.s).value, ToBytes(sig).value;
    assert bs[..32] == r && bs[32..64] == s;
  }

  /** The encoders agree on every V below 256, and the three decoders always agree. */
  lemma FormsAgree(sig: Signature, bs: bytes)
    ensures sig.v < 256 ==> SignatureToBytes(sig.r, sig.s, sig.v) == ToBytes(sig)
    ensures DeserializeSig(bs).Ok? == SignatureValues(bs).Ok? == AddSignatureToTx(bs).Ok?
    ensures DeserializeSig(bs).Ok? ==>
      var d := DeserializeSig(bs).value;
      SignatureValues(bs).value == (d.r, d.s, d.v) && AddSignatureToTx(bs).value == (d.v, d.r, d.s)
  {
    if |bs| == 65 {
      assert bs[64..] == [bs[64]];
      OneByte(bs[64]);
    }
  }
}
