/** The EIP-712 preimages of signer.rs. Hashing and signing are parameters: what is proved is about the bytes hashed. */
module Signer {
  import opened Prelude
  import opened SettlementTypes

  type Word = w: bytes | |w| == 32 witness seq(32, _ => 0)

  type Address = a: bytes | |a| == 20 witness seq(20, _ => 0)

  /** The signing key and the constants it signs under. */
  datatype Signing = Signing(
    hash: bytes -> Word,
    ecdsa: Word -> Option<bytes>,
    typeHash: Word,
    domainSeparator: Word)

  // Words -----------------------------------------------------------------------------------

  function BigEndian(n: nat, width: nat): (b: bytes)
    ensures |b| == width
  {
    if width == 0 then [] else BigEndian(n / 0x100, width - 1) + [n % 0x100]
  }

  function FromBigEndian(b: bytes): nat {
    if b == [] then 0 else 0x100 * FromBigEndian(b[..|b| - 1]) + b[|b| - 1]
  }

  function Pow256(k: nat): nat { if k == 0 then 1 else 0x100 * Pow256(k - 1) }

  lemma {:induction false} BigEndianReads(n: nat, width: nat)
    requires n < Pow256(width)
    ensures FromBigEndian(BigEndian(n, width)) == n
  {
    if width > 0 {
      BigEndianReads(n / 0x100, width - 1);
      assert BigEndian(n, width)[..width - 1] == BigEndian(n / 0x100, width - 1);
    }
  }

  function Zeros(k: nat): bytes { seq(k, _ => 0) }

  lemma {:induction false} ZerosIgnored(k: nat, b: bytes)
    ensures FromBigEndian(Zeros(k) + b) == FromBigEndian(b)
    decreases k + |b|
  {
    if b != [] {
      ZerosIgnored(k, b[..|b| - 1]);
      assert (Zeros(k) + b)[..k + |b| - 1] == Zeros(k) + b[..|b| - 1];
    } else if k > 0 {
      ZerosIgnored(k - 1, []);
      assert (Zeros(k) + b)[..k - 1] == Zeros(k - 1) + [];
    }
  }

  /** `FixedBytes::<32>::left_padding_from`. */
  function LeftPad(b: bytes): Word
    requires |b| <= 32
  {
    Zeros(32 - |b|) + b
  }

  function U64Word(n: u64): Word { LeftPad(BigEndian(n, 8)) }

  function U8Word(n: u8): Word { LeftPad([n]) }

  lemma U64WordReads(n: u64)
    ensures FromBigEndian(U64Word(n)) == n
  {
    assert Pow256(4) == 0x1_0000_0000;
    assert Pow256(8) == TWO_64;
    BigEndianReads(n, 8);
    ZerosIgnored(24, BigEndian(n, 8));
  }

  lemma U8WordReads(n: u8)
    ensures FromBigEndian(U8Word(n)) == n
  {
    ZerosIgnored(31, [n]);
    assert [n][..0] == [];
  }

  lemma {:induction false} ReadInjective(a: bytes, b: bytes)
    requires |a| == |b| && FromBigEndian(a) == FromBigEndian(b)
    ensures a == b
  {
    if a != [] {
      var n := |a| - 1;
      ReadInjective(a[..n], b[..n]);
      assert a == a[..n] + [a[n]] && b == b[..n] + [b[n]];
    }
  }

  // `abi.encode` of static values: one big-endian word each ----------------------------------

  function WordAt(p: bytes, i: nat): Word
    requires 32 * i + 32 <= |p|
  {
    p[32 * i..32 * i + 32]
  }

  ghost predicate AbiEncodes(p: bytes, values: seq<nat>) {
    |p| == 32 * |values| && forall i :: 0 <= i < |values| ==> FromBigEndian(WordAt(p, i)) == values[i]
  }

  /** Values have one encoding only. */
  lemma AbiUnique(p: bytes, q: bytes, values: seq<nat>)
    requires AbiEncodes(p, values) && AbiEncodes(q, values)
    ensures p == q
  {
    forall k | 0 <= k < |p| ensures p[k] == q[k] {
      var i := k / 32;
      ReadInjective(WordAt(p, i), WordAt(q, i));
      assert p[k] == WordAt(p, i)[k % 32] && q[k] == WordAt(q, i)[k % 32];
    }
  }

  // Preimages -------------------------------------------------------------------------------

  function SettlementValues(typeHash: Word, s: Settlement): seq<nat> {
    [FromBigEndian(typeHash), s.assetId, s.tradeOfferId, DecisionCode(s.decision), ReasonCode(s.refundReason)]
  }

  function SettlementPreimage(typeHash: Word, s: Settlement): (p: bytes)
    ensures |p| == 160
  {
    typeHash + U64Word(s.assetId) + U64Word(s.tradeOfferId) + U8Word(DecisionCode(s.decision))
    + U8Word(ReasonCode(s.refundReason))
  }

  function AttestationPreimage(typeHash: Word, assetId: u64, itemDetail: u64): (p: bytes)
    ensures |p| == 96
  {
    typeHash + U64Word(assetId) + U64Word(itemDetail)
  }

  function DomainPreimage(typeHash: Word, nameHash: Word, versionHash: Word, chainId: u64, verifyingContract: Address)
    : (p: bytes)
    ensures |p| == 160
  {
    typeHash + nameHash + versionHash + U64Word(chainId) + LeftPad(verifyingContract)
  }

  function DigestPreimage(domainSeparator: Word, structHash: Word): (p: bytes)
    ensures |p| == 66
  {
    [0x19, 0x01] + domainSeparator + structHash
  }

  lemma SettlementWords(typeHash: Word, s: Settlement)
    ensures var p := SettlementPreimage(typeHash, s);
      && WordAt(p, 0) == typeHash && WordAt(p, 1) == U64Word(s.assetId) && WordAt(p, 2) == U64Word(s.tradeOfferId)
      && WordAt(p, 3) == U8Word(DecisionCode(s.decision)) && WordAt(p, 4) == U8Word(ReasonCode(s.refundReason))
  {}

  /** A settlement is hashed as the contract's `abi.encode` of its type and fields. */
  lemma SettlementIsAbi(typeHash: Word, s: Settlement)
    ensures AbiEncodes(SettlementPreimage(typeHash, s), SettlementValues(typeHash, s))
  {
    SettlementWords(typeHash, s);
    U64WordReads(s.assetId);
    U64WordReads(s.tradeOfferId);
    U8WordReads(DecisionCode(s.decision));
    U8WordReads(ReasonCode(s.refundReason));
    var values := SettlementValues(typeHash, s);
    forall i | 0 <= i < |values| ensures FromBigEndian(WordAt(SettlementPreimage(typeHash, s), i)) == values[i] {
      assert i in {0, 1, 2, 3, 4};
    }
  }

  lemma AttestationWords(typeHash: Word, assetId: u64, itemDetail: u64)
    ensures var p := AttestationPreimage(typeHash, assetId, itemDetail);
      WordAt(p, 0) == typeHash && WordAt(p, 1) == U64Word(assetId) && WordAt(p, 2) == U64Word(itemDetail)
  {}

  lemma AttestationIsAbi(typeHash: Word, assetId: u64, itemDetail: u64)
    ensures AbiEncodes(AttestationPreimage(typeHash, assetId, itemDetail), [FromBigEndian(typeHash), assetId, itemDetail])
  {
    AttestationWords(typeHash, assetId, itemDetail);
    U64WordReads(assetId);
    U64WordReads(itemDetail);
  }

  lemma DomainWords(typeHash: Word, nameHash: Word, versionHash: Word, chainId: u64, verifyingContract: Address)
    ensures var p := DomainPreimage(typeHash, nameHash, versionHash, chainId, verifyingContract);
      && WordAt(p, 0) == typeHash && WordAt(p, 1) == nameHash && WordAt(p, 2) == versionHash
      && WordAt(p, 3) == U64Word(chainId) && WordAt(p, 4) == LeftPad(verifyingContract)
  {}

  lemma DomainIsAbi(typeHash: Word, nameHash: Word, versionHash: Word, chainId: u64, verifyingContract: Address)
    ensures AbiEncodes(DomainPreimage(typeHash, nameHash, versionHash, chainId, verifyingContract),
                       [FromBigEndian(typeHash), FromBigEndian(nameHash), FromBigEndian(versionHash), chainId,
                        FromBigEndian(verifyingContract)])
  {
    DomainWords(typeHash, nameHash, versionHash, chainId, verifyingContract);
    U64WordReads(chainId);
    ZerosIgnored(12, verifyingContract);
    var p := DomainPreimage(typeHash, nameHash, versionHash, chainId, verifyingContract);
    var values := [FromBigEndian(typeHash), FromBigEndian(nameHash), FromBigEndian(versionHash), chainId,
                   FromBigEndian(verifyingContract)];
    forall i | 0 <= i < |values| ensures FromBigEndian(WordAt(p, i)) == values[i] {
      assert i in {0, 1, 2, 3, 4};
    }
  }

  // The source's buffers: each reads back as the `abi.encode` of its values, which AbiUnique says determines it.

  method EncodeSettlement(typeHash: Word, s: Settlement) returns (encoded: bytes)
    ensures AbiEncodes(encoded, SettlementValues(typeHash, s)) && DecodeSettlement(encoded) == Some(s)
  {
    encoded := typeHash;
    encoded := encoded + U64Word(s.assetId);
    encoded := encoded + U64Word(s.tradeOfferId);
    encoded := encoded + U8Word(DecisionCode(s.decision));
    encoded := encoded + U8Word(ReasonCode(s.refundReason));
    SettlementIsAbi(typeHash, s);
    SettlementDecodes(typeHash, s);
  }

  method EncodeItemAttestation(typeHash: Word, assetId: u64, itemDetail: u64) returns (encoded: bytes)
    ensures AbiEncodes(encoded, [FromBigEndian(typeHash), assetId, itemDetail])
  {
    encoded := typeHash;
    encoded := encoded + U64Word(assetId);
    encoded := encoded + U64Word(itemDetail);
    AttestationIsAbi(typeHash, assetId, itemDetail);
  }

  method EncodeDomain(typeHash: Word, nameHash: Word, versionHash: Word, chainId: u64, verifyingContract: Address)
    returns (encoded: bytes)
    ensures AbiEncodes(encoded, [FromBigEndian(typeHash), FromBigEndian(nameHash), FromBigEndian(versionHash), chainId,
                                 FromBigEndian(verifyingContract)])
  {
    encoded := typeHash;
    encoded := encoded + nameHash;
    encoded := encoded + versionHash;
    encoded := encoded + U64Word(chainId);
    encoded := encoded + LeftPad(verifyingContract);
    DomainIsAbi(typeHash, nameHash, versionHash, chainId, verifyingContract);
  }

  /** The two bytes that keep a typed-data digest apart from a transaction, then domain and message. */
  method EncodeDigest(domainSeparator: Word, structHash: Word) returns (data: bytes)
    ensures |data| == 66 && data[0] == 0x19 && data[1] == 0x01
    ensures forall other, otherHash :: data == DigestPreimage(other, otherHash) <==> other == domainSeparator && otherHash == structHash
  {
    data := [0x19, 0x01];
    data := data + domainSeparator;
    data := data + structHash;
    assert data == DigestPreimage(domainSeparator, structHash);
    forall other, otherHash | data == DigestPreimage(other, otherHash)
      ensures other == domainSeparator && otherHash == structHash
    {
      DigestInjective(domainSeparator, structHash, other, otherHash);
    }
  }

  // Decoding --------------------------------------------------------------------------------

  function DecodeDecision(code: nat): Option<Decision> {
    if code == 0 then Some(Release) else if code == 1 then Some(Refund) else None
  }

  function DecodeReason(code: nat): Option<RefundReason> {
    match code
    case 0 => Some(NoReason)
    case 1 => Some(Timeout)
    case 2 => Some(NotCS2Item)
    case 3 => Some(WrongAsset)
    case 4 => Some(WrongParties)
    case 5 => Some(InvalidItems)
    case 6 => Some(Canceled2FA)
    case 7 => Some(BuyerExpired)
    case 8 => Some(SellerExpired)
    case 9 => Some(BuyerCanceled)
    case 10 => Some(SellerCanceled)
    case 11 => Some(BuyerDeclined)
    case 12 => Some(SellerDeclined)
    case 13 => Some(WrongRecipient)
    case 14 => Some(TradeRollback)
    case 15 => Some(DeprecatedRollback)
    case 16 => Some(TradeNotExist)
    case _ => None
  }

  lemma CodesDecode(d: Decision, r: RefundReason)
    ensures DecodeDecision(DecisionCode(d)) == Some(d) && DecodeReason(ReasonCode(r)) == Some(r)
  {}

  /** Reads a settlement back from what was hashed. */
  function DecodeSettlement(p: bytes): Option<Settlement> {
    if |p| != 160 then None
    else
      var asset, offer := FromBigEndian(WordAt(p, 1)), FromBigEndian(WordAt(p, 2));
      var decision, reason := DecodeDecision(FromBigEndian(WordAt(p, 3))), DecodeReason(FromBigEndian(WordAt(p, 4)));
      if asset <= U64_MAX && offer <= U64_MAX && decision.Some? && reason.Some?
      then Some(Settlement(asset, offer, decision.value, reason.value)) else None
  }

  lemma SettlementDecodes(typeHash: Word, s: Settlement)
    ensures DecodeSettlement(SettlementPreimage(typeHash, s)) == Some(s)
  {
    SettlementWords(typeHash, s);
    U64WordReads(s.assetId);
    U64WordReads(s.tradeOfferId);
    U8WordReads(DecisionCode(s.decision));
    U8WordReads(ReasonCode(s.refundReason));
    CodesDecode(s.decision, s.refundReason);
  }

  lemma SettlementInjective(typeHash: Word, s: Settlement, typeHash': Word, s': Settlement)
    requires SettlementPreimage(typeHash, s) == SettlementPreimage(typeHash', s')
    ensures s == s' && typeHash == typeHash'
  {
    SettlementDecodes(typeHash, s);
    SettlementDecodes(typeHash', s');
    SettlementWords(typeHash, s);
    SettlementWords(typeHash', s');
  }

  lemma AttestationInjective(typeHash: Word, assetId: u64, itemDetail: u64, typeHash': Word, assetId': u64, itemDetail': u64)
    requires AttestationPreimage(typeHash, assetId, itemDetail) == AttestationPreimage(typeHash', assetId', itemDetail')
    ensures assetId == assetId' && itemDetail == itemDetail' && typeHash == typeHash'
  {
    var p, p' := AttestationPreimage(typeHash, assetId, itemDetail), AttestationPreimage(typeHash', assetId', itemDetail');
    assert WordAt(p, 0) == typeHash && WordAt(p, 1) == U64Word(assetId) && WordAt(p, 2) == U64Word(itemDetail);
    assert WordAt(p', 0) == typeHash' && WordAt(p', 1) == U64Word(assetId') && WordAt(p', 2) == U64Word(itemDetail');
    U64WordReads(assetId);
    U64WordReads(assetId');
    U64WordReads(itemDetail);
    U64WordReads(itemDetail');
  }

  /** No signature over one kind of message can be read as the other kind: their struct preimages never coincide. */
  lemma KindsDisjoint(typeHash: Word, s: Settlement, typeHash': Word, assetId: u64, itemDetail: u64)
    ensures SettlementPreimage(typeHash, s) != AttestationPreimage(typeHash', assetId, itemDetail)
  {
    assert |SettlementPreimage(typeHash, s)| != |AttestationPreimage(typeHash', assetId, itemDetail)|;
  }

  lemma DomainInjective(typeHash: Word, name: Word, version: Word, chainId: u64, contract: Address, chainId': u64, contract': Address)
    requires DomainPreimage(typeHash, name, version, chainId, contract) == DomainPreimage(typeHash, name, version, chainId', contract')
    ensures chainId == chainId' && contract == contract'
  {
    var p := DomainPreimage(typeHash, name, version, chainId, contract);
    var p' := DomainPreimage(typeHash, name, version, chainId', contract');
    assert WordAt(p, 3) == U64Word(chainId) && WordAt(p, 4) == LeftPad(contract);
    assert WordAt(p', 3) == U64Word(chainId') && WordAt(p', 4) == LeftPad(contract');
    U64WordReads(chainId);
    U64WordReads(chainId');
    assert WordAt(p, 4)[12..] == contract && WordAt(p', 4)[12..] == contract';
  }

  lemma DigestInjective(domain: Word, structHash: Word, domain': Word, structHash': Word)
    requires DigestPreimage(domain, structHash) == DigestPreimage(domain', structHash')
    ensures domain == domain' && structHash == structHash'
  {
    var p, p' := DigestPreimage(domain, structHash), DigestPreimage(domain', structHash');
    assert p[2..34] == domain && p[34..] == structHash;
    assert p'[2..34] == domain' && p'[34..] == structHash';
  }

  // Agreement with the contract -------------------------------------------------------------

  function Truncated(s: Settlement): Settlement { s.(tradeOfferId := s.tradeOfferId % TWO_48) }

  /** What the contract hashes: `tradeOfferId` is a `uint48` there. */
  function ContractPreimage(typeHash: Word, s: Settlement): bytes { SettlementPreimage(typeHash, Truncated(s)) }

  lemma SameSettlementIff(typeHash: Word, s: Settlement, s': Settlement)
    ensures SettlementPreimage(typeHash, s) == SettlementPreimage(typeHash, s') <==> s == s'
  {
    if SettlementPreimage(typeHash, s) == SettlementPreimage(typeHash, s') { SettlementInjective(typeHash, s, typeHash, s'); }
  }

  lemma TruncatedIff(s: Settlement)
    ensures s == Truncated(s) <==> s.tradeOfferId < 0x1_0000_0000_0000
  {}

  /** Oracle and contract hash the same bytes exactly for trade offer ids of at most 48 bits; Pipeline.SignedForContract
      proves that no other is signed. */
  lemma ContractAgreesIff(typeHash: Word, s: Settlement)
    ensures SettlementPreimage(typeHash, s) == ContractPreimage(typeHash, s) <==> s.tradeOfferId < 0x1_0000_0000_0000
  {
    SameSettlementIff(typeHash, s, Truncated(s));
    TruncatedIff(s);
  }
}
