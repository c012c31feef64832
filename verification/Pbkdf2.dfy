/** PBKDF2 over a hardware HMAC (esp_secure_cert_crypto.c) against section 5.2 of RFC 8018. */
module Pbkdf2 {

  import opened Types

  const DIGEST_SIZE := 32

  /** The keyed HMAC-SHA256 of the peripheral, as a function of the message. */
  type Hmac = seq<byte> -> seq<byte>

  ghost predicate IsDigest(hmac: Hmac) {
    forall m :: |hmac(m)| == DIGEST_SIZE
  }

  function Xor(a: byte, b: byte): byte {
    ((a as bv8) ^ (b as bv8)) as int
  }

  function XorAll(a: seq<byte>, b: seq<byte>): (c: seq<byte>)
    requires |a| == |b|
    ensures |c| == |a|
  {
    seq(|a|, i requires 0 <= i < |a| => Xor(a[i], b[i]))
  }

  // ----- the definition

  /** INT (i): the block index in four octets, most significant first. */
  function Int32(i: nat): (bytes: seq<byte>)
    ensures |bytes| == 4
  {
    [i / 256 / 256 / 256 % 256, i / 256 / 256 % 256, i / 256 % 256, i % 256]
  }

  /** U_j of block i. */
  ghost function U(hmac: Hmac, salt: seq<byte>, i: nat, j: nat): (u: seq<byte>)
    requires IsDigest(hmac) && j >= 1
    ensures |u| == DIGEST_SIZE
  {
    if j == 1 then hmac(salt + Int32(i)) else hmac(U(hmac, salt, i, j - 1))
  }

  /** F (P, S, c, i) = U_1 \xor ... \xor U_c. */
  ghost function F(hmac: Hmac, salt: seq<byte>, c: nat, i: nat): (f: seq<byte>)
    requires IsDigest(hmac) && c >= 1
    ensures |f| == DIGEST_SIZE
  {
    if c == 1 then U(hmac, salt, i, 1) else XorAll(F(hmac, salt, c - 1, i), U(hmac, salt, i, c))
  }

  /** T_1 || ... || T_n. */
  ghost function Blocks(hmac: Hmac, salt: seq<byte>, c: nat, n: nat): (t: seq<byte>)
    requires IsDigest(hmac) && c >= 1
    ensures |t| == n * DIGEST_SIZE
  {
    if n == 0 then [] else Blocks(hmac, salt, c, n - 1) + F(hmac, salt, c, n)
  }

  /** The derived key: the first `length` octets of the blocks. */
  ghost function Derived(hmac: Hmac, salt: seq<byte>, c: nat, length: nat): (key: seq<byte>)
    requires IsDigest(hmac) && c >= 1
    ensures |key| == length
  {
    Blocks(hmac, salt, c, BlocksFor(length))[..length]
  }

  /** Octet p of a derived key comes from block p / 32 + 1, however long the key is. */
  lemma {:induction false} DerivedOctet(hmac: Hmac, salt: seq<byte>, c: nat, length: nat, p: nat)
    requires IsDigest(hmac) && c >= 1 && p < length
    ensures Derived(hmac, salt, c, length)[p] == F(hmac, salt, c, p / DIGEST_SIZE + 1)[p % DIGEST_SIZE]
  {
    BlocksOctet(hmac, salt, c, BlocksFor(length), p);
  }

  lemma {:induction false} BlocksOctet(hmac: Hmac, salt: seq<byte>, c: nat, n: nat, p: nat)
    requires IsDigest(hmac) && c >= 1 && p < n * DIGEST_SIZE
    ensures Blocks(hmac, salt, c, n)[p] == F(hmac, salt, c, p / DIGEST_SIZE + 1)[p % DIGEST_SIZE]
  {
    hide Blocks, F;
    LastBlock(hmac, salt, c, n);
    var before, last := Blocks(hmac, salt, c, n - 1), F(hmac, salt, c, n);
    if p < |before| {
      BlocksOctet(hmac, salt, c, n - 1, p);
      assert (before + last)[p] == before[p];
    } else {
      BlockIndex(p, n - 1);
      assert (before + last)[p] == last[p - |before|];
    }
  }

  lemma {:induction false} LastBlock(hmac: Hmac, salt: seq<byte>, c: nat, n: nat)
    requires IsDigest(hmac) && c >= 1 && n > 0
    ensures Blocks(hmac, salt, c, n) == Blocks(hmac, salt, c, n - 1) + F(hmac, salt, c, n)
  {
  }

  lemma {:induction false} BlockIndex(p: nat, n: nat)
    requires n * DIGEST_SIZE <= p < (n + 1) * DIGEST_SIZE
    ensures p / DIGEST_SIZE == n && p % DIGEST_SIZE == p - n * DIGEST_SIZE
  {
  }

  // ----- the implementation

  /** The peripheral computes the HMAC of a message into `out`, or fails, as `works` says. */
  method HmacCalculate(hmac: Hmac, message: seq<byte>, out: array<byte>, works: bool) returns (ok: bool)
    requires IsDigest(hmac) && out.Length == DIGEST_SIZE
    modifies out
    ensures ok == works && (ok ==> out[..] == hmac(message))
  {
    ok := works;
    if ok {
      var digest := hmac(message);
      for k := 0 to DIGEST_SIZE
        invariant out[..k] == digest[..k]
      {
        out[k] := digest[k];
      }
      assert out[..] == out[..DIGEST_SIZE] && digest == digest[..DIGEST_SIZE];
    }
  }

  method Copy(dest: array<byte>, at: nat, source: seq<byte>)
    requires at + |source| <= dest.Length
    modifies dest
    ensures dest[..at + |source|] == old(dest[..at]) + source
    ensures forall i :: at + |source| <= i < dest.Length ==> dest[i] == old(dest[i])
  {
    ghost var was := dest[..];
    for k := 0 to |source|
      invariant dest[..at + k] == was[..at] + source[..k]
      invariant forall i :: at + k <= i < dest.Length ==> dest[i] == was[i]
    {
      dest[at + k] := source[k];
    }
  }

  method CopyDigest(dest: array<byte>, source: seq<byte>)
    requires dest.Length == |source|
    modifies dest
    ensures dest[..] == source
  {
    Copy(dest, 0, source);
    assert dest[..] == dest[..|source|] == [] + source;
  }

  /** Adds one to a big-endian counter, carrying from the last octet. */
  method Increment(counter: array<byte>, ghost n: nat)
    requires counter.Length == 4 && counter[..] == Int32(n)
    modifies counter
    ensures counter[..] == Int32(n + 1)
  {
    var i := 4;
    ghost var was := counter[..];
    while i > 0
      invariant 0 <= i <= 4
      invariant forall k :: 0 <= k < i ==> counter[k] == was[k]
      invariant forall k :: i <= k < 4 ==> was[k] == 255 && counter[k] == 0
    {
      counter[i - 1] := if counter[i - 1] == 255 then 0 else counter[i - 1] + 1;
      if counter[i - 1] != 0 {
        CarryStops(n, i - 1);
        assert counter[..] == was[..i - 1] + [was[i - 1] + 1] + seq(4 - i, _ => 0);
        return;
      }
      i := i - 1;
    }
    CarryWraps(n);
  }

  lemma {:induction false} AddOne(n: nat)
    ensures n % 256 == 255 ==> (n + 1) % 256 == 0 && (n + 1) / 256 == n / 256 + 1
    ensures n % 256 < 255 ==> (n + 1) % 256 == n % 256 + 1 && (n + 1) / 256 == n / 256
  {
  }

  lemma {:induction false} CarryStops(n: nat, k: nat)
    requires k < 4 && Int32(n)[k] < 255 && forall j :: k < j < 4 ==> Int32(n)[j] == 255
    ensures Int32(n + 1) == Int32(n)[..k] + [Int32(n)[k] + 1] + seq(3 - k, _ => 0)
  {
    assert k < 3 ==> Int32(n)[3] == 255;
    assert k < 2 ==> Int32(n)[2] == 255;
    assert k < 1 ==> Int32(n)[1] == 255;
    AddOne(n);
    AddOne(n / 256);
    AddOne(n / 256 / 256);
    AddOne(n / 256 / 256 / 256);
  }

  lemma {:induction false} CarryWraps(n: nat)
    requires forall j :: 0 <= j < 4 ==> Int32(n)[j] == 255
    ensures Int32(n + 1) == [0, 0, 0, 0]
  {
    assert Int32(n)[0] == Int32(n)[1] == Int32(n)[2] == Int32(n)[3] == 255;
    AddOne(n);
    AddOne(n / 256);
    AddOne(n / 256 / 256);
    AddOne(n / 256 / 256 / 256);
  }

  /** XORs one digest into another, octet by octet. */
  method XorInto(work: array<byte>, md1: array<byte>)
    requires work.Length == md1.Length == DIGEST_SIZE && work != md1
    modifies work
    ensures work[..] == XorAll(old(work[..]), md1[..])
  {
    ghost var was := work[..];
    for j := 0 to DIGEST_SIZE
      invariant forall k :: 0 <= k < j ==> work[k] == Xor(was[k], md1[k])
      invariant forall k :: j <= k < DIGEST_SIZE ==> work[k] == was[k]
    {
      work[j] := Xor(work[j], md1[j]);
    }
  }

  lemma {:induction false} FirstTerm(hmac: Hmac, salt: seq<byte>, i: nat)
    requires IsDigest(hmac)
    ensures U(hmac, salt, i, 1) == F(hmac, salt, 1, i) == hmac(salt + Int32(i))
  {
  }

  lemma {:induction false} NextTerm(hmac: Hmac, salt: seq<byte>, i: nat, k: nat)
    requires IsDigest(hmac) && k >= 1
    ensures U(hmac, salt, i, k + 1) == hmac(U(hmac, salt, i, k))
    ensures F(hmac, salt, k + 1, i) == XorAll(F(hmac, salt, k, i), U(hmac, salt, i, k + 1))
  {
  }

  /** A zero iteration count is taken for one. */
  function Iterations(count: nat): (c: nat)
    ensures c >= 1
  {
    if count == 0 then 1 else count
  }

  /** The HMAC calls with these numbers succeed. */
  ghost predicate AllWork(works: nat -> bool, from: nat, to: nat) {
    forall k :: from <= k < to ==> works(k)
  }

  lemma {:induction false} OneMore(works: nat -> bool, from: nat, k: nat)
    ensures AllWork(works, from, from + k + 1) <==> AllWork(works, from, from + k) && works(from + k)
    ensures AllWork(works, from, from)
  {
  }

  lemma {:induction false} Beyond(works: nat -> bool, from: nat, k: nat, n: nat)
    requires k < n
    ensures !works(from + k) ==> !AllWork(works, from, from + n)
  {
  }

  /** One block: U_1 into `work`, then every further U into `md1` and from there into `work`. */
  method Block(hmac: Hmac, ghost salt: seq<byte>, hmacInput: seq<byte>, iterationCount: nat, ghost i: nat,
               work: array<byte>, md1: array<byte>, works: nat -> bool, calls: nat) returns (ok: bool)
    requires IsDigest(hmac) && hmacInput == salt + Int32(i)
    requires work.Length == md1.Length == DIGEST_SIZE && work != md1
    modifies work, md1
    ensures ok ==> work[..] == F(hmac, salt, Iterations(iterationCount), i)
    // one HMAC for each iteration, and nothing but a failed one stops the block
    ensures ok <==> AllWork(works, calls, calls + Iterations(iterationCount))
  {
    hide U, F, Int32, IsDigest, Xor, XorAll, AllWork;
    OneMore(works, calls, 0);
    Beyond(works, calls, 0, Iterations(iterationCount));
    ok := HmacCalculate(hmac, hmacInput, work, works(calls));
    if !ok {
      return;
    }
    CopyDigest(md1, work[..]);
    FirstTerm(hmac, salt, i);
    var k := 1;
    while k < iterationCount
      invariant 1 <= k && (k <= iterationCount || k == 1) && ok && AllWork(works, calls, calls + k)
      invariant work[..] == F(hmac, salt, k, i) && md1[..] == U(hmac, salt, i, k)
    {
      NextTerm(hmac, salt, i, k);
      OneMore(works, calls, k);
      Beyond(works, calls, k, iterationCount);
      ok := HmacCalculate(hmac, md1[..], md1, works(calls + k));
      if !ok {
        return;
      }
      XorInto(work, md1);
      k := k + 1;
    }
  }

  /** The last block may be used in part; no block is computed beyond it. */
  lemma {:induction false} AllBlocks(hmac: Hmac, salt: seq<byte>, c: nat, length: nat, n: nat)
    requires IsDigest(hmac) && c >= 1 && (n - 1) * DIGEST_SIZE < length <= n * DIGEST_SIZE
    ensures Blocks(hmac, salt, c, n)[..length] == Derived(hmac, salt, c, length)
  {
    hide Blocks;
    BlockCount(length, n);
  }

  /** How many blocks a key of this length takes. */
  function BlocksFor(length: nat): nat {
    (length + DIGEST_SIZE - 1) / DIGEST_SIZE
  }

  lemma {:induction false} BlockCount(length: nat, n: nat)
    requires (n - 1) * DIGEST_SIZE < length <= n * DIGEST_SIZE
    ensures BlocksFor(length) == n
  {
  }

  /** The calls of n blocks, counted block by block. */
  ghost function Calls(n: nat, c: nat): (calls: nat)
  {
    if n == 0 then 0 else Calls(n - 1, c) + c
  }

  lemma {:induction false} CallsStep(n: nat, c: nat)
    ensures Calls(n + 1, c) == Calls(n, c) + c && Calls(0, c) == 0
  {
  }

  lemma {:induction false} CallsAreProduct(n: nat, c: nat)
    ensures Calls(n, c) == n * c
  {
    if n > 0 {
      CallsAreProduct(n - 1, c);
    }
  }

  lemma {:induction false} WorkJoined(works: nat -> bool, m: nat, n: nat)
    requires m <= n
    ensures AllWork(works, 0, n) <==> AllWork(works, 0, m) && AllWork(works, m, n)
    ensures AllWork(works, 0, 0)
  {
  }

  /** A block still to be computed needs its HMACs. */
  lemma {:induction false} MoreNeeded(works: nat -> bool, n: nat, c: nat, length: nat)
    requires length > n * DIGEST_SIZE && !AllWork(works, Calls(n, c), Calls(n, c) + c)
    ensures !AllWork(works, 0, BlocksFor(length) * c)
  {
    hide Calls;
    CallsAreProduct(n, c);
    var blocks := BlocksFor(length);
    assert blocks >= n + 1;
    assert blocks * c >= (n + 1) * c == n * c + c;
  }

  lemma {:induction false} NoBlocks(hmac: Hmac, salt: seq<byte>, c: nat)
    requires IsDigest(hmac) && c >= 1
    ensures Blocks(hmac, salt, c, 0) == []
  {
  }

  /** Appending the first `used` octets of the next block. */
  lemma {:induction false} NextBlock(hmac: Hmac, salt: seq<byte>, c: nat, n: nat, used: nat)
    requires IsDigest(hmac) && c >= 1 && used <= DIGEST_SIZE
    ensures Blocks(hmac, salt, c, n)[..n * DIGEST_SIZE] + F(hmac, salt, c, n + 1)[..used]
         == Blocks(hmac, salt, c, n + 1)[..n * DIGEST_SIZE + used]
  {
    hide F;
  }

  lemma {:induction false} One()
    ensures Int32(1) == [0, 0, 0, 1]
  {
  }

  /** The message of a block's first HMAC. */
  method SaltAndCounter(hmacInput: array<byte>, salt: seq<byte>, counter: array<byte>)
    requires counter.Length == 4 && hmacInput.Length >= |salt| + 4 && hmacInput != counter
    modifies hmacInput
    ensures hmacInput[..|salt| + 4] == salt + counter[..]
  {
    Copy(hmacInput, 0, salt);
    Copy(hmacInput, |salt|, counter[..]);
  }

  /** Computes the next block and appends what is used of it to the output. */
  method AppendBlock(hmac: Hmac, salt: seq<byte>, iterationCount: nat, ghost n: nat, out: nat, useLen: nat,
                     counter: array<byte>, hmacInput: array<byte>, work: array<byte>, md1: array<byte>,
                     output: array<byte>, works: nat -> bool, calls: nat) returns (ok: bool)
    requires IsDigest(hmac) && counter.Length == 4 && hmacInput.Length >= |salt| + 4
    requires work.Length == md1.Length == DIGEST_SIZE && work != md1 && hmacInput != counter
    requires output !in {counter, hmacInput, work, md1} && counter !in {work, md1} && counter[..] == Int32(n + 1)
    requires useLen <= DIGEST_SIZE && out == n * DIGEST_SIZE && out + useLen <= output.Length
    requires output[..out] == Blocks(hmac, salt, Iterations(iterationCount), n)[..out]
    modifies hmacInput, work, md1, output
    ensures ok <==> AllWork(works, calls, calls + Iterations(iterationCount))
    ensures ok ==> output[..out + useLen] == Blocks(hmac, salt, Iterations(iterationCount), n + 1)[..out + useLen]
    ensures forall p :: out + useLen <= p < output.Length ==> output[p] == old(output[p])
  {
    hide U, F, Xor, XorAll, Blocks, IsDigest, Int32, AllWork;
    SaltAndCounter(hmacInput, salt, counter);
    ok := Block(hmac, salt, hmacInput[..|salt| + 4], iterationCount, n + 1, work, md1, works, calls);
    if ok {
      NextBlock(hmac, salt, Iterations(iterationCount), n, useLen);
      Copy(output, out, work[..useLen]);
    }
  }

  method Pbkdf2HmacSha256(hmac: Hmac, salt: seq<byte>, iterationCount: nat, keyLength: nat, output: array<byte>,
                          memoryOk: bool, works: nat -> bool) returns (ret: int)
    requires IsDigest(hmac) && keyLength <= output.Length
    modifies output
    ensures ret == 0 || ret == -1
    // it succeeds exactly when there is memory and every HMAC it needs works: one for each iteration of each block
    ensures ret == 0 <==>
            && memoryOk
            && AllWork(works, 0, BlocksFor(keyLength) * Iterations(iterationCount))
    ensures ret == 0 ==> output[..keyLength] == Derived(hmac, salt, Iterations(iterationCount), keyLength)
    ensures forall p :: keyLength <= p < output.Length ==> output[p] == old(output[p])
  {
    hide U, F, Xor, XorAll, Blocks, Derived, IsDigest, Int32, AllWork, Calls, BlocksFor;
    ghost var c := Iterations(iterationCount);
    if !memoryOk {
      return -1;
    }
    var md1, work := new byte[DIGEST_SIZE](_ => 0), new byte[DIGEST_SIZE](_ => 0);
    var counter := new byte[4](_ => 0);
    counter[3] := 1;
    var hmacInput := new byte[|salt| + 4 + 1](_ => 0);
    var remaining, out, calls := keyLength, 0, 0;
    ghost var n := 0;  // whole blocks written
    assert counter[..] == Int32(1) by { One(); }
    NoBlocks(hmac, salt, c);
    CallsStep(0, c);
    WorkJoined(works, 0, 0);
    while remaining > 0
      invariant calls == Calls(n, c) && AllWork(works, 0, calls)
      invariant fresh(md1) && fresh(work) && fresh(counter) && fresh(hmacInput) && work != md1
      invariant 0 <= remaining && 0 <= n && out + remaining == keyLength
      invariant remaining > 0 ==> out == n * DIGEST_SIZE
      invariant counter[..] == Int32(n + 1)
      invariant out <= n * DIGEST_SIZE && output[..out] == Blocks(hmac, salt, c, n)[..out]
      invariant remaining == 0 ==> keyLength > (n - 1) * DIGEST_SIZE
      invariant forall p :: keyLength <= p < output.Length ==> output[p] == old(output[p])
    {
      var useLen := if remaining < DIGEST_SIZE then remaining else DIGEST_SIZE;
      var ok := AppendBlock(hmac, salt, iterationCount, n, out, useLen, counter, hmacInput, work, md1, output, works,
                            calls);
      if !ok {
        MoreNeeded(works, n, c, keyLength);
        return -1;
      }
      CallsStep(n, c);
      WorkJoined(works, calls, calls + c);
      calls := calls + Iterations(iterationCount);
      remaining := remaining - useLen;
      out := out + useLen;
      Increment(counter, n + 1);
      n := n + 1;
    }
    AllBlocks(hmac, salt, c, keyLength, n);
    BlockCount(keyLength, n);
    CallsAreProduct(n, c);
    ret := 0;
  }
}
