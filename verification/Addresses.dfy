/** When two addresses are one address, said by character codes: what is stored of an address, and
    that nothing else about it matters. */
module Addresses {
  import opened Text

  /** A blank: tab to carriage return, the four separators, or a space. */
  predicate IsBlank(c: char) {
    9 <= c as int <= 13 || 28 <= c as int <= 32
  }

  /** The same character, or the two cases of one letter. */
  predicate SameLetter(c: char, d: char) {
    || c == d
    || (65 <= c as int <= 90 && d as int == c as int + 32)
    || (65 <= d as int <= 90 && c as int == d as int + 32)
  }

  predicate SameText(s: string, t: string) {
    |s| == |t| && forall i | 0 <= i < |s| :: SameLetter(s[i], t[i])
  }

  /** What is left of `raw` between positions that have only blanks outside them. */
  predicate IsCoreAt(raw: string, s: string, i: nat, j: nat) {
    && i <= j <= |raw| && s == raw[i..j]
    && (forall k | 0 <= k < i :: IsBlank(raw[k])) && (forall k | j <= k < |raw| :: IsBlank(raw[k]))
    && (s != "" ==> !IsBlank(s[0]) && !IsBlank(s[|s| - 1]))
  }

  ghost predicate IsCore(raw: string, s: string) {
    exists i: nat, j: nat :: IsCoreAt(raw, s, i, j)
  }

  /** The same text but for case and outer blanks. */
  ghost predicate Alike(a: string, b: string) {
    exists s, t :: IsCore(a, s) && IsCore(b, t) && SameText(s, t)
  }

  lemma {:induction false} StripLeftAt(s: string) returns (i: nat)
    ensures i <= |s| && StripLeft(s) == s[i..] && forall k | 0 <= k < i :: IsBlank(s[k])
    decreases |s|
  {
    if s != "" && IsSpace(s[0]) {
      var j := StripLeftAt(s[1..]);
      i := j + 1;
      assert s[1..][j..] == s[i..];
      forall k | 0 <= k < i ensures IsBlank(s[k]) {
        assert k == 0 || s[k] == s[1..][k - 1];
      }
    } else {
      i := 0;
    }
  }

  lemma {:induction false} StripRightAt(s: string) returns (j: nat)
    ensures j <= |s| && StripRight(s) == s[..j] && forall k | j <= k < |s| :: IsBlank(s[k])
    decreases |s|
  {
    if s != "" && IsSpace(s[|s| - 1]) {
      var front := s[..|s| - 1];
      j := StripRightAt(front);
      assert front[..j] == s[..j];
      forall k | j <= k < |s| ensures IsBlank(s[k]) {
        assert k == |s| - 1 || s[k] == front[k];
      }
    } else {
      j := |s|;
    }
  }

  /** Stripping takes away a blank beginning and a blank end, and nothing else. */
  lemma StripIsCore(raw: string)
    ensures IsCore(raw, Strip(raw))
  {
    var i := StripLeftAt(raw);
    var left := raw[i..];
    var j := StripRightAt(left);
    assert left[..j] == raw[i..i + j];
    StripStrips(raw);
    forall k | i + j <= k < |raw| ensures IsBlank(raw[k]) {
      assert raw[k] == left[k - i];
    }
    assert IsCoreAt(raw, Strip(raw), i, i + j);
  }

  /** There is only one way to do that. */
  lemma CoreIsOne(raw: string, s: string, t: string)
    requires IsCore(raw, s) && IsCore(raw, t)
    ensures s == t
  {
    var i: nat, j: nat :| IsCoreAt(raw, s, i, j);
    var k: nat, l: nat :| IsCoreAt(raw, t, k, l);
    if s == "" || t == "" {
      CoreOfBlank(raw, s, i, j, t, k, l);
    } else {
      assert raw[i] == s[0] && raw[j - 1] == s[|s| - 1] && raw[k] == t[0] && raw[l - 1] == t[|t| - 1];
      assert i == k && j == l;
    }
  }

  lemma CoreOfBlank(raw: string, s: string, i: nat, j: nat, t: string, k: nat, l: nat)
    requires IsCoreAt(raw, s, i, j) && IsCoreAt(raw, t, k, l) && (s == "" || t == "")
    ensures s == t == ""
  {
  }

  lemma LowerSame(c: char, d: char)
    ensures LowerChar(c) == LowerChar(d) <==> SameLetter(c, d)
  {
  }

  lemma LowerIsSame(s: string, t: string)
    ensures Lower(s) == Lower(t) <==> SameText(s, t)
  {
    if |s| == |t| {
      forall i | 0 <= i < |s| ensures Lower(s)[i] == Lower(t)[i] <==> SameLetter(s[i], t[i]) {
        LowerSame(s[i], t[i]);
      }
      if Lower(s) == Lower(t) {
        assert forall i | 0 <= i < |s| :: Lower(s)[i] == Lower(t)[i];
      }
    }
  }

  /** Two addresses are stored alike exactly when they are the same text but for the case of letters
      and for outer blanks. */
  lemma StoredAlike(a: string, b: string)
    ensures NormaliseEmail(a) == NormaliseEmail(b) <==> Alike(a, b)
  {
    StripIsCore(a);
    StripIsCore(b);
    LowerIsSame(Strip(a), Strip(b));
    if Alike(a, b) {
      var s, t :| IsCore(a, s) && IsCore(b, t) && SameText(s, t);
      CoreIsOne(a, s, Strip(a));
      CoreIsOne(b, t, Strip(b));
    }
  }

  /** And what is stored is the address itself: the same text, in small letters, without outer blanks. */
  lemma StoredForm(raw: string)
    ensures var e := NormaliseEmail(raw);
      && Alike(e, raw)
      && (forall i | 0 <= i < |e| :: !(65 <= e[i] as int <= 90))
      && (e != "" ==> !IsBlank(e[0]) && !IsBlank(e[|e| - 1]))
  {
    NormalisedIsFixed(raw);
    StoredAlike(NormaliseEmail(raw), raw);
  }
}
