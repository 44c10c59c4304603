/**
 What several models share: optional values, and the bytes and digests of
 content-addressed files.
 */
module Common {

  datatype Option<+T> = None | Some(value: T)

  /**
   A large predicate is looked into only where a proof opens it: an outer one apart from those it holds, and one
   about the first so many steps for just that number.
   */
  datatype Seal = Seal
  datatype Layer = Inner | Outer | Outermost

  predicate Unsealed(s: Seal, layer: Layer := Inner, at: nat := 0) { true }

  newtype Byte = x: int | 0 <= x < 256
  type Bytes = seq<Byte>

  /** SHA-256, written in hexadecimal. */
  type Hash = Bytes -> string

  predicate IsHex(c: char) { '0' <= c <= '9' || 'a' <= c <= 'f' }

  predicate ValidDigest(d: string) {
    |d| == 64 && forall i :: 0 <= i < |d| ==> IsHex(d[i])
  }

  /** A blob store: what the file of a digest holds. */
  type Store = map<string, Bytes>

  /** No two different contents among the given ones share a digest. */
  ghost predicate Apart(hash: Hash, contents: set<Bytes>) {
    forall a, b :: a in contents && b in contents && hash(a) == hash(b) ==> a == b
  }

  lemma HeadIn<T>(s: seq<T>)
    ensures s == [] || exists x :: x in s
  {
    assert s == [] || s[0] in s;
  }
}
