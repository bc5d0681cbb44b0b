/** Digests and the keys they are stored under. A key determines its digest. */
module Keys {

  const SUFFIX := ".spkf"

  predicate IsHexDigit(c: char) {
    '0' <= c <= '9' || 'a' <= c <= 'f'
  }

  /** Exactly 64 lower-case hexadecimal digits. */
  predicate IsSha256(s: string) {
    |s| == 64 && forall i | 0 <= i < |s| :: IsHexDigit(s[i])
  }

  /** What `hexdigest()` can return. */
  type Sha256 = s: string | IsSha256(s)
    witness seq(64, _ => '0')

  function ObjectKey(sha256: string): string
    requires IsSha256(sha256)
  {
    sha256[..2] + "/" + sha256 + SUFFIX
  }

  /** Two characters of the digest, a slash, the digest, and the suffix of an artifact. */
  lemma KeyShape(a: string)
    requires IsSha256(a)
    ensures var key := ObjectKey(a);
      |key| == 72 && key[0] == a[0] && key[1] == a[1] && key[2] == '/' && key[3..67] == a && key[67..] == ".spkf"
    ensures |a| == 64 && forall c | c in a :: 48 <= c as int <= 57 || 97 <= c as int <= 102
  {
    assert ObjectKey(a)[3..67] == a && ObjectKey(a)[67..] == SUFFIX;
  }

  /** A key names its digest: it can be read back, so two digests never share a key. */
  lemma KeyNamesDigest(a: string, b: string)
    requires IsSha256(a) && IsSha256(b)
    ensures ObjectKey(a)[3..67] == a
    ensures ObjectKey(a) == ObjectKey(b) <==> a == b
  {
    assert ObjectKey(a)[3..67] == a;
    assert ObjectKey(b)[3..67] == b;
  }
}
