/**
 Sealing private rows (agent/crates/sr-agent/src/store/crypto.rs): `aad` in full, and
 `seal`/`open` as an ideal AEAD with the contract of sections 2.1 and 2.2 of RFC 5116:
 a ciphertext opens under exactly the key, nonce and associated data it was sealed with.
 */
module Crypto {
  import opened Decimals
  import opened Options

  const NONCE_LEN := 12

  datatype Dek = Dek(bytes: seq<bv8>)

  // ----- Associated data -----

  /** Binds a ciphertext to its tab and its key. Not to its snapshot: copies must keep opening. */
  function Aad(tabKey: string, keyId: int): string {
    tabKey + "\0" + Decimal(keyId)
  }

  /** Two strings cut at their last NUL are equal part by part. */
  lemma SameCut(a: string, x: string, b: string, y: string)
    requires a + "\0" + x == b + "\0" + y
    requires (forall i :: 0 <= i < |x| ==> x[i] != '\0') && (forall i :: 0 <= i < |y| ==> y[i] != '\0')
    ensures a == b && x == y
  {
    var s := a + "\0" + x;
    assert s[|a|] == '\0' && s[|b|] == '\0';
    assert forall i :: |a| < i < |s| ==> s[i] == x[i - |a| - 1];
    assert forall i :: |b| < i < |s| ==> s[i] == y[i - |b| - 1];
    assert |a| == |b|;
    assert s[..|a|] == a && s[..|b|] == b;
    assert s[|a|+1..] == x && s[|b|+1..] == y;
  }

  /** No two pairs share associated data, even when the tab key itself holds a NUL or digits. */
  lemma AadInjective(k1: string, id1: int, k2: string, id2: int)
    requires Aad(k1, id1) == Aad(k2, id2)
    ensures k1 == k2 && id1 == id2
  {
    SameCut(k1, Decimal(id1), k2, Decimal(id2));
    DecimalInjective(id1, id2);
  }

  // ----- The ideal AEAD -----

  /** What a blob column can hold: the output of some `seal`, or bytes no `seal` produced. */
  datatype Ciphertext<T> = Ciphertext(dek: Dek, nonce: seq<bv8>, aad: string, plaintext: T) | Foreign(bytes: seq<bv8>)

  datatype Sealed<T> = Sealed(nonce: seq<bv8>, ciphertext: Ciphertext<T>)

  function Seal<T>(dek: Dek, aad: string, plaintext: T, nonce: seq<bv8>): Sealed<T>
    requires |nonce| == NONCE_LEN
  {
    Sealed(nonce, Ciphertext(dek, nonce, aad, plaintext))
  }

  function Open<T(==)>(dek: Dek, aad: string, nonce: seq<bv8>, c: Ciphertext<T>): Option<T> {
    if |nonce| != NONCE_LEN then None
    else if c.Ciphertext? && c.dek == dek && c.nonce == nonce && c.aad == aad then Some(c.plaintext)
    else None
  }

  /** A sealed row opens exactly where it was put: same data key, same tab key, same key id. */
  lemma OpensOnlyInPlace<T>(dek: Dek, tabKey: string, keyId: int, plaintext: T, nonce: seq<bv8>,
                            dek': Dek, tabKey': string, keyId': int)
    requires |nonce| == NONCE_LEN
    ensures var s := Seal(dek, Aad(tabKey, keyId), plaintext, nonce);
      Open(dek', Aad(tabKey', keyId'), s.nonce, s.ciphertext)
      == if dek' == dek && tabKey' == tabKey && keyId' == keyId then Some(plaintext) else None
  {
    if Aad(tabKey, keyId) == Aad(tabKey', keyId') {
      AadInjective(tabKey, keyId, tabKey', keyId');
    }
  }
}
