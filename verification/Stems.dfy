/** What a stem is made of: the part of an address before the first at-sign, the first candidate that
    leaves anything, and names that cleaning does not touch. */
module Stems {
  import opened Basics
  import opened Text
  import opened Handles
  import opened Credentials
  import opened Accounts

  // ----- names that cleaning leaves alone -----

  lemma {:induction false} NoAt(s: string)
    requires forall i | 0 <= i < |s| :: s[i] != '@'
    ensures LocalPart(s) == s
    decreases |s|
  {
    if s != "" {
      NoAt(s[1..]);
    }
  }

  lemma {:induction false} NoneReplaced(s: string)
    requires forall i | 0 <= i < |s| :: IsLegal(s[i])
    ensures ReplaceRuns(s) == s
    decreases |s|
  {
    if s != "" {
      NoneReplaced(s[1..]);
    }
  }

  lemma {:induction false} NoneCollapsed(s: string)
    requires forall i | 0 < i < |s| :: s[i] == '-' ==> s[i - 1] != '-'
    ensures CollapseRuns(s) == s
    decreases |s|
  {
    if s != "" {
      forall i | 0 < i < |s[1..]| && s[1..][i] == '-' ensures s[1..][i - 1] != '-' {
        assert s[i + 1] == '-';
      }
      if s[0] == '-' && |s| > 1 {
        assert s[1] != '-';
        assert DropHyphens(s[1..]) == s[1..];
      }
      NoneCollapsed(s[1..]);
    }
  }

  lemma {:induction false} NoneLowered(s: string)
    requires forall i | 0 <= i < |s| :: !IsUpper(s[i])
    ensures Lower(s) == s
  {
    assert forall i | 0 <= i < |s| :: Lower(s)[i] == s[i];
  }

  /** A stem that does not end in a hyphen and fits is its own clean form. */
  lemma CleanIsFixed(s: string)
    requires IsStem(s) && !EndsInHyphen(s) && |s| <= STEM_LIMIT
    ensures Clean(s) == s
  {
    StrippedStays(s);
    NoneLowered(s);
    NoAt(s);
    PassesLeave(s);
  }

  lemma PassesLeave(s: string)
    requires IsStem(s) && !EndsInHyphen(s) && |s| <= STEM_LIMIT
    ensures Cut(Collapsed(s)) == s
  {
    NoneReplaced(s);
    NoneCollapsed(s);
    assert DropHyphens(s) == s && TrimHyphens(s) == s;
  }

  // ----- the domain of an address -----

  lemma {:induction false} LeftBeforeAt(a: string, b: string)
    ensures StripLeft(a + "@" + b) == StripLeft(a) + "@" + b
    decreases |a|
  {
    var s := a + "@" + b;
    if a == "" {
      assert s[0] == '@';
    } else {
      assert s[0] == a[0] && s[1..] == a[1..] + "@" + b;
      if IsSpace(a[0]) {
        LeftBeforeAt(a[1..], b);
      }
    }
  }

  lemma {:induction false} RightAfterAt(a: string, b: string)
    ensures StripRight(a + "@" + b) == a + "@" + StripRight(b)
    decreases |b|
  {
    var s := a + "@" + b;
    if b == "" {
      assert s[|s| - 1] == '@';
    } else {
      var front := b[..|b| - 1];
      assert s[|s| - 1] == b[|b| - 1] && s[..|s| - 1] == a + "@" + front;
      if IsSpace(b[|b| - 1]) {
        RightAfterAt(a, front);
      }
    }
  }

  lemma LowerAt(a: string, b: string)
    ensures Lower(a + "@" + b) == Lower(a) + "@" + Lower(b)
  {
    var s, t := Lower(a + "@" + b), Lower(a) + "@" + Lower(b);
    assert forall i | 0 <= i < |s| :: s[i] == t[i];
  }

  lemma {:induction false} LocalBeforeAt(a: string, b: string)
    ensures LocalPart(a + "@" + b) == LocalPart(a)
    decreases |a|
  {
    var s := a + "@" + b;
    if a == "" {
      assert s[0] == '@';
    } else {
      assert s[0] == a[0] && s[1..] == a[1..] + "@" + b;
      LocalBeforeAt(a[1..], b);
    }
  }

  /** What stands after an at-sign never gets into a stem, whatever stands before it. */
  lemma DomainIsDropped(a: string, b: string)
    ensures NormaliseEmail(a + "@" + b) == Lower(StripLeft(a)) + "@" + Lower(StripRight(b))
    ensures LocalName(a + "@" + b) == LocalPart(Lower(StripLeft(a)))
    ensures '@' !in a ==> LocalPart(a + "@" + b) == a
  {
    LeftBeforeAt(a, b);
    RightAfterAt(StripLeft(a), b);
    LowerAt(StripLeft(a), StripRight(b));
    LocalBeforeAt(Lower(StripLeft(a)), Lower(StripRight(b)));
    LocalBeforeAt(a, b);
    if '@' !in a {
      NoAt(a);
    }
  }

  /** The local part of an address is its stem, where it is a legal one that fits. */
  lemma AddressStem(w: string, b: string)
    requires IsStem(w) && w != "" && !EndsInHyphen(w) && |w| <= 30
    ensures StemFrom([w + "@" + b]) == w && NormaliseEmail(w + "@" + b) == w + "@" + Lower(StripRight(b))
  {
    assert StripLeft(w) == w;
    NoneLowered(w);
    assert LocalName(w + "@" + b) == w by {
      DomainIsDropped(w, b);
      NoAt(w);
    }
    assert NormaliseEmail(w + "@" + b) == w + "@" + Lower(StripRight(b)) by {
      DomainIsDropped(w, b);
    }
    PassesLeave(w);
    assert Clean(w + "@" + b) == w;
  }

  /** A registration gives the handle before the at-sign whenever that is free. */
  lemma AddressGivesHandle(book: Book, w: string, b: string)
    requires Consistent(book) && IsStem(w) && w != "" && !EndsInHyphen(w) && |w| <= 30
    requires IsFree(HandlesTaken(book), w) && forall u | u in book.accounts :: !Has(book, u, w + "@" + b)
    ensures var (book1, r) := Register(book, w + "@" + b, true);
      r.Ok? && Gains(book, book1, r.value, w + "@" + b, false) && book1.accounts[r.value].handle == w
  {
    var email := w + "@" + b;
    AddressStem(w, b);
    AddressStem(w, Lower(StripRight(b)));
    StemIsFree(HandlesTaken(book), |book.accounts|, [NormaliseEmail(email)]);
    assert NewHandle(book, [NormaliseEmail(email)]) == w;
    RegisteredHandle(book, email, w);
  }

  lemma RegisteredHandle(book: Book, email: string, handle: string)
    requires Consistent(book) && handle == NewHandle(book, [NormaliseEmail(email)]) && handle !in HandlesTaken(book)
    requires forall u | u in book.accounts :: !Has(book, u, email)
    ensures var (book1, r) := Register(book, email, true);
      r.Ok? && Gains(book, book1, r.value, email, false) && book1.accounts[r.value].handle == handle
  {
    var address := NormaliseEmail(email);
    NormalisedIsFixed(email);
    RegisteredExactly(book, email, true);
    InsertedGains(book, Account(handle, address, false, ActiveAccount), email);
  }

  // ----- the first candidate that leaves anything -----

  lemma {:induction false} FirstWorkable(candidates: seq<string>, k: nat)
    requires k < |candidates| && Clean(candidates[k]) != "" && forall j | 0 <= j < k :: Clean(candidates[j]) == ""
    ensures StemFrom(candidates) == Clean(candidates[k])
    decreases |candidates|
  {
    if k > 0 {
      FirstWorkable(candidates[1..], k - 1);
    }
  }

  lemma {:induction false} NoneWorkable(candidates: seq<string>)
    requires forall j | 0 <= j < |candidates| :: Clean(candidates[j]) == ""
    ensures StemFrom(candidates) == "user"
    decreases |candidates|
  {
    if candidates != [] {
      NoneWorkable(candidates[1..]);
    }
  }

  lemma StemIsFree(taken: set<string>, count: nat, candidates: seq<string>)
    requires IsFree(taken, StemFrom(candidates))
    ensures Allocated(taken, count, candidates) == StemFrom(candidates)
  {
    var stem := StemFrom(candidates);
    assert Attempt(stem, 1) == stem;
    assert Search(taken, stem, 1) == Some(1);
  }

  lemma StemIs(name: string, rest: string)
    requires IsStem(name) && !EndsInHyphen(name) && 1 <= |name| <= STEM_LIMIT
    ensures StemFrom([name, rest]) == name
  {
    CleanIsFixed(name);
  }

  // ----- characters by their codes -----

  predicate IsLetterOrDigit(c: char) {
    97 <= c as int <= 122 || 48 <= c as int <= 57
  }

  /** The handle grammar by character codes. */
  lemma GrammarByCodes(s: string)
    ensures IsHandle(s) <==>
      && 1 <= |s| <= 39 && IsLetterOrDigit(s[0]) && IsLetterOrDigit(s[|s| - 1])
      && forall c | c in s :: IsLetterOrDigit(c) || c as int == 45
  {
    if IsHandle(s) {
      assert forall c | c in s :: IsLetterOrDigit(c) || c as int == 45;
    } else if forall c | c in s :: IsLetterOrDigit(c) || c as int == 45 {
      assert forall i | 0 <= i < |s| :: s[i] in s;
    }
  }

  /** Every reserved name is within it: without the reservation it could be taken. */
  lemma ReservedAreHandles(s: string)
    requires s in RESERVED_HANDLES
    ensures IsHandle(s)
  {
  }

  /** A stem by character codes, with its bound as a number. */
  lemma StemByCodes(candidates: seq<string>)
    ensures var stem := StemFrom(candidates);
      && 1 <= |stem| <= 30 && IsLetterOrDigit(stem[0])
      && forall i | 0 <= i < |stem| ::
           IsLetterOrDigit(stem[i]) || (stem[i] as int == 45 && 0 < i && stem[i - 1] as int != 45)
  {
    StemIsLegal(candidates);
  }
}
