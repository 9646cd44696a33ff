/**
 The verifying paymaster's byte layout and the digest its signature covers.
 */
module Paymaster {
  import opened Wrappers

  type Byte = b: int | 0 <= b < 256
  type Bytes = seq<Byte>

  /** 256 to the power `n`. */
  function Pow256(n: nat): (p: int)
    ensures p > 0
  {
    if n == 0 then 1 else 256 * Pow256(n - 1)
  }

  const TIME_LIMIT := 0x1_0000_0000_0000
  const ADDRESS_SIZE := 20
  const WORD := 32

  // ---------------------------------------------------------------------------
  // ABI words
  // ---------------------------------------------------------------------------

  /** Big-endian, `n` bytes. */
  function BigEndian(v: nat, n: nat): (b: Bytes)
    ensures |b| == n
  {
    if n == 0 then [] else BigEndian(v / 256, n - 1) + [v % 256]
  }

  function Value(b: Bytes): nat {
    if b == [] then 0 else 256 * Value(b[..|b| - 1]) + b[|b| - 1]
  }

  lemma QuotientBelow(v: nat, p: nat)
    requires v < 256 * p
    ensures v / 256 < p
  {
  }

  lemma {:induction false} ValueOfBigEndian(v: nat, n: nat)
    requires v < Pow256(n)
    ensures Value(BigEndian(v, n)) == v
  {
    if n > 0 {
      var b := BigEndian(v, n);
      QuotientBelow(v, Pow256(n - 1));
      ValueOfBigEndian(v / 256, n - 1);
      assert b[..n - 1] == BigEndian(v / 256, n - 1) && b[n - 1] == v % 256;
      assert Value(b) == 256 * Value(b[..n - 1]) + b[n - 1];
      hide BigEndian, Value, Pow256;
    }
  }

  lemma {:induction false} BigEndianOfValue(b: Bytes)
    ensures Value(b) < Pow256(|b|)
    ensures BigEndian(Value(b), |b|) == b
  {
    if b != [] {
      BigEndianOfValue(b[..|b| - 1]);
      assert b[..|b| - 1] + [b[|b| - 1]] == b;
    }
  }

  lemma TimesFitAWord()
    ensures TIME_LIMIT < Pow256(WORD)
  {
    assert Pow256(1) == 256;
    assert Pow256(2) == 0x1_0000;
    assert Pow256(3) == 0x100_0000;
    assert Pow256(4) == 0x1_0000_0000;
    assert Pow256(5) == 0x100_0000_0000;
    assert Pow256(6) == 0x1_0000_0000_0000;
    assert Pow256(7) == 256 * TIME_LIMIT;
    Growing(7, WORD);
  }

  lemma {:induction false} Growing(m: nat, n: nat)
    requires m <= n
    ensures Pow256(m) <= Pow256(n)
    decreases n
  {
    if m < n {
      Growing(m, n - 1);
    }
  }

  function Zeros(n: nat): (z: Bytes)
    ensures |z| == n
  {
    seq(n, _ => 0)
  }

  /** `uint256` and, for in-range values, every narrower width. */
  function Word(v: nat): (w: Bytes)
    ensures |w| == WORD
  {
    BigEndian(v, WORD)
  }

  function AddressWord(a: Bytes): Bytes {
    Zeros(12) + a
  }

  predicate InUint48(v: int) {
    0 <= v < TIME_LIMIT
  }

  predicate InUint256(v: int) {
    0 <= v < Pow256(WORD)
  }

  // ---------------------------------------------------------------------------
  // paymasterAndData
  // ---------------------------------------------------------------------------

  const HEX := "0123456789abcdef"

  function Digit(d: int): char
    requires 0 <= d < 16
  {
    HEX[d]
  }

  function HexOf(b: Bytes): string {
    if b == [] then "" else [Digit(b[0] / 16), Digit(b[0] % 16)] + HexOf(b[1..])
  }

  function Nibble(c: char): (n: Option<int>)
    ensures n.Some? ==> 0 <= n.value < 16
  {
    if '0' <= c <= '9' then Some(c as int - '0' as int)
    else if 'a' <= c <= 'f' then Some(c as int - 'a' as int + 10)
    else None
  }

  function Unhex(s: string): Option<Bytes> {
    if s == "" then Some([])
    else if |s| == 1 || Nibble(s[0]).None? || Nibble(s[1]).None? || Unhex(s[2..]).None? then None
    else Some([16 * Nibble(s[0]).value + Nibble(s[1]).value] + Unhex(s[2..]).value)
  }

  lemma NibbleOfHex(d: int)
    requires 0 <= d < 16
    ensures Nibble(Digit(d)) == Some(d)
  {
  }

  lemma {:induction false} UnhexPair(c: char, d: char, rest: string)
    requires Nibble(c).Some? && Nibble(d).Some? && Unhex(rest).Some?
    ensures Unhex([c, d] + rest) == Some([16 * Nibble(c).value + Nibble(d).value] + Unhex(rest).value)
  {
    hide Nibble;
    assert ([c, d] + rest)[2..] == rest;
  }

  lemma {:induction false} UnhexOfHex(b: Bytes)
    ensures Unhex(HexOf(b)) == Some(b)
  {
    if b != [] {
      hide Unhex, Nibble, Digit;
      UnhexOfHex(b[1..]);
      NibbleOfHex(b[0] / 16);
      NibbleOfHex(b[0] % 16);
      UnhexPair(Digit(b[0] / 16), Digit(b[0] % 16), HexOf(b[1..]));
      assert [b[0]] + b[1..] == b;
    } else {
      assert HexOf(b) == "";
    }
  }

  datatype Fields = Fields(paymaster: Bytes, validUntil: int, validAfter: int, signature: Bytes)

  /** The address, the two times as ABI words, the signature, in hex; times out of range do not
      encode. */
  function BuildPaymasterAndData(f: Fields): (r: Result<string, string>)
    ensures r.Ok? <==> InUint48(f.validUntil) && InUint48(f.validAfter)
  {
    if !InUint48(f.validUntil) || !InUint48(f.validAfter) then Err("value out of bounds")
    else
      var times := Word(f.validUntil) + Word(f.validAfter);
      Ok("0x" + HexOf(f.paymaster + times + f.signature))
  }

  /** Reading it back by the documented offsets: [0:20], [20:84], [84:]. */
  function Unpack(s: string): Option<Fields> {
    if |s| < 2 || s[..2] != "0x" || Unhex(s[2..]).None? then None
    else
      var b := Unhex(s[2..]).value;
      if |b| < 84 then None
      else Some(Fields(b[..20], Value(b[20..52]), Value(b[52..84]), b[84..]))
  }

  /** Reading back gives what was packed exactly when the address has its twenty bytes. */
  lemma UnpackIff(f: Fields)
    requires InUint48(f.validUntil) && InUint48(f.validAfter)
    ensures Unpack(BuildPaymasterAndData(f).value) == Some(f) <==> |f.paymaster| == ADDRESS_SIZE
  {
    hide BigEndian, Value, HexOf, Unhex, Pow256;
    var until, after := Word(f.validUntil), Word(f.validAfter);
    var b := f.paymaster + (until + after) + f.signature;
    var text := BuildPaymasterAndData(f).value;
    assert text[2..] == HexOf(b) && text[..2] == "0x";
    UnhexOfHex(b);
    if |f.paymaster| == ADDRESS_SIZE {
      assert b[..20] == f.paymaster && b[20..52] == until && b[52..84] == after && b[84..] == f.signature;
      TimesFitAWord();
      ValueOfBigEndian(f.validUntil, WORD);
      ValueOfBigEndian(f.validAfter, WORD);
    }
  }

  // ---------------------------------------------------------------------------
  // The digest
  // ---------------------------------------------------------------------------

  type Hash = Bytes -> Bytes

  datatype UserOp = UserOp(
    sender: Bytes,
    nonce: int,
    initCode: Bytes,
    callData: Bytes,
    callGasLimit: int,
    verificationGasLimit: int,
    preVerificationGas: int,
    maxFeePerGas: int,
    maxPriorityFeePerGas: int,
    chainId: int,
    paymaster: Bytes,
    validUntil: int,
    validAfter: int)

  predicate Encodable(o: UserOp) {
    && |o.sender| == ADDRESS_SIZE
    && |o.paymaster| == ADDRESS_SIZE
    && InUint256(o.nonce)
    && InUint256(o.callGasLimit)
    && InUint256(o.verificationGasLimit)
    && InUint256(o.preVerificationGas)
    && InUint256(o.maxFeePerGas)
    && InUint256(o.maxPriorityFeePerGas)
    && InUint256(o.chainId)
    && InUint48(o.validUntil)
    && InUint48(o.validAfter)
  }

  /** Fixed-size ABI parameters are encoded one word after the other. */
  function Concat(words: seq<Bytes>): Bytes {
    if words == [] then [] else words[0] + Concat(words[1..])
  }

  function OpWords(h: Hash, o: UserOp): seq<Bytes>
    requires Encodable(o)
  {
    [AddressWord(o.sender), Word(o.nonce), h(o.initCode), h(o.callData), Word(o.callGasLimit),
     Word(o.verificationGasLimit), Word(o.preVerificationGas), Word(o.maxFeePerGas), Word(o.maxPriorityFeePerGas)]
  }

  function OpEncoding(h: Hash, o: UserOp): Bytes
    requires Encodable(o)
  {
    Concat(OpWords(h, o))
  }

  function OuterWords(h: Hash, o: UserOp): seq<Bytes>
    requires Encodable(o)
  {
    [h(OpEncoding(h, o)), Word(o.chainId), AddressWord(o.paymaster), Word(o.validUntil), Word(o.validAfter)]
  }

  function OuterEncoding(h: Hash, o: UserOp): Bytes
    requires Encodable(o)
  {
    Concat(OuterWords(h, o))
  }

  /** `None` when a field does not encode. */
  function PaymasterDigest(h: Hash, o: UserOp): Option<Bytes> {
    if Encodable(o) then Some(h(OuterEncoding(h, o))) else None
  }

  ghost predicate IsHash(h: Hash) {
    forall b :: |h(b)| == WORD
  }

  predicate Collision(h: Hash, a: Bytes, b: Bytes) {
    a != b && h(a) == h(b)
  }

  predicate AllWords(ws: seq<Bytes>) {
    forall k :: 0 <= k < |ws| ==> |ws[k]| == WORD
  }

  lemma ValueOfWord(v: nat)
    requires InUint256(v)
    ensures Value(Word(v)) == v
  {
    ValueOfBigEndian(v, WORD);
  }

  // ---------------------------------------------------------------------------
  // Which bytes are signed
  // ---------------------------------------------------------------------------

  /** Word `k` of an encoding. */
  function WordAt(b: Bytes, k: nat): Bytes
    requires WORD * (k + 1) <= |b|
  {
    b[WORD * k..WORD * (k + 1)]
  }

  /** The word holds the number; so the number is in the range of a word. */
  predicate Holds(w: Bytes, v: int) {
    |w| == WORD && Value(w) == v
  }

  predicate HoldsAddress(w: Bytes, a: Bytes) {
    |w| == WORD && (forall i :: 0 <= i < 12 ==> w[i] == 0) && w[12..] == a
  }

  /** The operation's 288 bytes, as the contract encodes them: sender, nonce, the hashes of the init
      code and of the call data, the three gas amounts, the two fees. */
  predicate OpLayout(h: Hash, o: UserOp, inner: Bytes) {
    && |inner| == 288
    && HoldsAddress(WordAt(inner, 0), o.sender)
    && Holds(WordAt(inner, 1), o.nonce)
    && WordAt(inner, 2) == h(o.initCode)
    && WordAt(inner, 3) == h(o.callData)
    && Holds(WordAt(inner, 4), o.callGasLimit)
    && Holds(WordAt(inner, 5), o.verificationGasLimit)
    && Holds(WordAt(inner, 6), o.preVerificationGas)
    && Holds(WordAt(inner, 7), o.maxFeePerGas)
    && Holds(WordAt(inner, 8), o.maxPriorityFeePerGas)
  }

  /** The 160 bytes around its hash: the chain, the paymaster, the end and the start of validity. */
  predicate OuterLayout(h: Hash, o: UserOp, inner: Bytes, outer: Bytes) {
    && |outer| == 160
    && WordAt(outer, 0) == h(inner)
    && Holds(WordAt(outer, 1), o.chainId)
    && HoldsAddress(WordAt(outer, 2), o.paymaster)
    && Holds(WordAt(outer, 3), o.validUntil) && o.validUntil < 0x1_0000_0000_0000
    && Holds(WordAt(outer, 4), o.validAfter) && o.validAfter < 0x1_0000_0000_0000
  }

  lemma {:induction false} WordsAt(ws: seq<Bytes>, k: nat)
    requires AllWords(ws) && k < |ws|
    ensures |Concat(ws)| == WORD * |ws|
    ensures WordAt(Concat(ws), k) == ws[k]
  {
    var rest := Concat(ws[1..]);
    if |ws| > 1 {
      WordsAt(ws[1..], if k == 0 then 0 else k - 1);
    }
    if k > 0 {
      assert Concat(ws)[WORD * k..WORD * (k + 1)] == rest[WORD * (k - 1)..WORD * k];
    }
  }

  lemma EncodingIsLaidOut(h: Hash, o: UserOp)
    requires IsHash(h) && Encodable(o)
    ensures OpLayout(h, o, OpEncoding(h, o)) && OuterLayout(h, o, OpEncoding(h, o), OuterEncoding(h, o))
  {
    hide Concat, BigEndian, Value, Pow256;
    var ws, vs := OpWords(h, o), OuterWords(h, o);
    WordsAt(ws, 0);
    WordsAt(vs, 0);
    forall k: nat | k < 9 ensures WordAt(OpEncoding(h, o), k) == ws[k] {
      WordsAt(ws, k);
    }
    forall k: nat | k < 5 ensures WordAt(OuterEncoding(h, o), k) == vs[k] {
      WordsAt(vs, k);
    }
    hide WordAt, OpEncoding, OuterEncoding;
    TimesFitAWord();
    ValueOfWord(o.nonce);
    ValueOfWord(o.callGasLimit);
    ValueOfWord(o.verificationGasLimit);
    ValueOfWord(o.preVerificationGas);
    ValueOfWord(o.maxFeePerGas);
    ValueOfWord(o.maxPriorityFeePerGas);
    ValueOfWord(o.chainId);
    ValueOfWord(o.validUntil);
    ValueOfWord(o.validAfter);
  }

  /** Words that hold the same number or address are the same. */
  lemma HeldOnce(w: Bytes, v: int)
    requires Holds(w, v)
    ensures InUint256(v) && w == Word(v)
  {
    BigEndianOfValue(w);
  }

  lemma {:induction false} SameWords(a: Bytes, b: Bytes, n: nat)
    requires |a| == |b| == WORD * n && forall k :: 0 <= k < n ==> WordAt(a, k) == WordAt(b, k)
    ensures a == b
  {
    forall i | 0 <= i < |a| ensures a[i] == b[i] {
      var k := i / WORD;
      assert WordAt(a, k)[i - WORD * k] == a[i] && WordAt(b, k)[i - WORD * k] == b[i];
    }
  }

  lemma AddressOnce(w: Bytes, a: Bytes)
    requires HoldsAddress(w, a)
    ensures |a| == ADDRESS_SIZE && w == AddressWord(a)
  {
  }

  lemma LaidOutIsEncodable(h: Hash, o: UserOp, inner: Bytes, outer: Bytes)
    requires OpLayout(h, o, inner) && OuterLayout(h, o, inner, outer)
    ensures Encodable(o)
  {
    hide WordAt, Holds, HoldsAddress, Pow256;
    AddressOnce(WordAt(inner, 0), o.sender);
    HeldOnce(WordAt(inner, 1), o.nonce);
    HeldOnce(WordAt(inner, 4), o.callGasLimit);
    HeldOnce(WordAt(inner, 5), o.verificationGasLimit);
    HeldOnce(WordAt(inner, 6), o.preVerificationGas);
    HeldOnce(WordAt(inner, 7), o.maxFeePerGas);
    HeldOnce(WordAt(inner, 8), o.maxPriorityFeePerGas);
    HeldOnce(WordAt(outer, 1), o.chainId);
    AddressOnce(WordAt(outer, 2), o.paymaster);
    HeldOnce(WordAt(outer, 3), o.validUntil);
    HeldOnce(WordAt(outer, 4), o.validAfter);
  }

  /** There is no other way to lay the operation out. */
  lemma OneOpLayout(h: Hash, o: UserOp, a: Bytes, b: Bytes)
    requires OpLayout(h, o, a) && OpLayout(h, o, b)
    ensures a == b
  {
    forall k | 0 <= k < 9 ensures WordAt(a, k) == WordAt(b, k) {
      hide WordAt, Holds, HoldsAddress;
      if k == 0 {
        AddressOnce(WordAt(a, 0), o.sender);
        AddressOnce(WordAt(b, 0), o.sender);
      } else if k !in {2, 3} {
        var v := [0, o.nonce, 0, 0, o.callGasLimit, o.verificationGasLimit, o.preVerificationGas, o.maxFeePerGas,
                  o.maxPriorityFeePerGas][k];
        HeldOnce(WordAt(a, k), v);
        HeldOnce(WordAt(b, k), v);
      }
    }
    SameWords(a, b, 9);
  }

  lemma OneOuterLayout(h: Hash, o: UserOp, inner: Bytes, a: Bytes, b: Bytes)
    requires OuterLayout(h, o, inner, a) && OuterLayout(h, o, inner, b)
    ensures a == b
  {
    forall k | 0 <= k < 5 ensures WordAt(a, k) == WordAt(b, k) {
      hide WordAt, Holds, HoldsAddress;
      if k == 2 {
        AddressOnce(WordAt(a, 2), o.paymaster);
        AddressOnce(WordAt(b, 2), o.paymaster);
      } else if k != 0 {
        var v := [0, o.chainId, 0, o.validUntil, o.validAfter][k];
        HeldOnce(WordAt(a, k), v);
        HeldOnce(WordAt(b, k), v);
      }
    }
    SameWords(a, b, 5);
  }

  /** The digest is the hash of exactly these bytes, and there is one exactly when the inputs can be
      laid out so: two addresses of twenty bytes, times below 2^48, the other numbers in a word. */
  lemma DigestIs(h: Hash, o: UserOp, d: Bytes)
    requires IsHash(h)
    ensures PaymasterDigest(h, o) == Some(d)
            <==> exists inner, outer :: OpLayout(h, o, inner) && OuterLayout(h, o, inner, outer) && d == h(outer)
  {
    hide OpEncoding, OuterEncoding, OpLayout, OuterLayout, Encodable;
    if Encodable(o) {
      EncodingIsLaidOut(h, o);
    }
    if inner, outer :| OpLayout(h, o, inner) && OuterLayout(h, o, inner, outer) && d == h(outer) {
      LaidOutIsEncodable(h, o, inner, outer);
      OneOpLayout(h, o, inner, OpEncoding(h, o));
      OneOuterLayout(h, o, inner, outer, OuterEncoding(h, o));
    }
  }

  /** The same bytes lay out the same values. */
  lemma LayoutBinds(h: Hash, a: UserOp, b: UserOp, inner: Bytes, outer: Bytes)
    requires OpLayout(h, a, inner) && OuterLayout(h, a, inner, outer)
    requires OpLayout(h, b, inner) && OuterLayout(h, b, inner, outer)
    requires a.initCode == b.initCode && a.callData == b.callData
    ensures a == b
  {
    hide WordAt;
  }

  /** The digest binds all thirteen inputs: two requests with the same digest are the same, or one of
      the four pairs of byte strings that were hashed is a collision. */
  lemma DigestBinds(h: Hash, a: UserOp, b: UserOp)
    requires IsHash(h) && Encodable(a) && Encodable(b)
    requires PaymasterDigest(h, a) == PaymasterDigest(h, b)
    ensures || a == b
            || Collision(h, OuterEncoding(h, a), OuterEncoding(h, b))
            || Collision(h, OpEncoding(h, a), OpEncoding(h, b))
            || Collision(h, a.initCode, b.initCode)
            || Collision(h, a.callData, b.callData)
  {
    hide OuterEncoding, OpEncoding, IsHash, Encodable, WordAt, Holds, HoldsAddress;
    var outer, inner := OuterEncoding(h, a), OpEncoding(h, a);
    EncodingIsLaidOut(h, a);
    EncodingIsLaidOut(h, b);
    if outer == OuterEncoding(h, b) && inner == OpEncoding(h, b) && a.initCode == b.initCode && a.callData == b.callData {
      LayoutBinds(h, a, b, inner, outer);
    }
  }
}
