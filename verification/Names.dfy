/** Handles as the catalog accepts them, and the identifiers made from them. */
module Names {
  import opened Basics
  import opened Text
  import opened Handles
  import opened Addresses
  import opened Schema
  import opened Credentials
  import opened Accounts

  datatype NameError = InvalidName | ReservedName

  function NormaliseHandle(raw: string): Result<string, NameError> {
    var handle := Lower(Strip(raw));
    if !IsHandle(handle) then Err(InvalidName)
    else if handle in RESERVED_HANDLES then Err(ReservedName)
    else Ok(handle)
  }

  function EntryId(handle: string, slug: string): string {
    "@" + handle + "/" + slug
  }

  lemma HandleIsPlain(handle: string)
    requires IsHandle(handle)
    ensures Lower(Strip(handle)) == handle
  {
    StrippedStays(handle);
    assert Lower(handle) == handle;
  }

  /** An accepted handle fits the grammar, is not reserved, and is accepted again unchanged: no
      two accepted handles are alike but for case or outer blanks. */
  lemma AcceptedHandleIsFixed(raw: string)
    requires NormaliseHandle(raw).Ok?
    ensures var handle := NormaliseHandle(raw).value;
      IsHandle(handle) && handle !in RESERVED_HANDLES && NormaliseHandle(handle) == Ok(handle)
  {
    HandleIsPlain(NormaliseHandle(raw).value);
  }

  /** Exactly which text is accepted, and as what: a handle of the grammar, once case and outer blanks
      are put aside, that is not reserved; alike texts are answered alike. */
  lemma AcceptedExactly(raw: string, other: string)
    ensures var r := NormaliseHandle(raw);
      && (r.Ok? ==> IsHandle(r.value) && Alike(r.value, raw) && !IsReservedName(r.value))
      && (r == Err(ReservedName) ==> exists h :: IsReservedName(h) && Alike(h, raw))
      && (r == Err(InvalidName) ==> forall h | IsHandle(h) :: !Alike(h, raw))
      && (Alike(other, raw) ==> NormaliseHandle(other) == r)
  {
    var handle := NormaliseEmail(raw);
    StoredAlike(handle, raw);
    StoredAlike(other, raw);
    NormalisedIsFixed(raw);
    if !IsHandle(handle) {
      forall h | IsHandle(h) ensures !Alike(h, raw) {
        StoredAlike(h, raw);
        HandleIsPlain(h);
      }
    } else {
      ReservedByName(handle);
      assert Alike(handle, raw);
    }
  }

  /** The names nobody may take, one by one. */
  predicate IsReservedName(h: string) {
    || h == "reference" || h == "bundled" || h == "nir" || h == "snntorch" || h == "spikingjelly" || h == "norse"
    || h == "lava" || h == "spikeforge" || h == "capsize" || h == "admin" || h == "api" || h == "hub"
    || h == "internal" || h == "oauth" || h == "login" || h == "logout" || h == "activate" || h == "settings"
    || h == "about" || h == "help" || h == "support" || h == "static" || h == "assets" || h == "docs"
    || h == "www" || h == "root" || h == "me" || h == "new"
  }

  lemma ReservedByName(h: string)
    ensures h in RESERVED_HANDLES <==> IsReservedName(h)
  {
  }

  lemma GivenIsUnreserved(taken: set<string>, count: nat, candidates: seq<string>)
    ensures !IsReservedName(Allocated(taken, count, candidates))
  {
    ReservedByName(Allocated(taken, count, candidates));
    AllocatedShape(taken, count, candidates);
    SuffixedNotReserved(FALLBACK, count + 1);
  }

  // ----- over runs -----

  ghost predicate NoneReserved(book: Book) {
    forall u | u in book.accounts :: !IsReservedName(book.accounts[u].handle)
  }

  lemma InsertedUnreserved(book: Book, row: Account)
    requires NoneReserved(book) && !IsReservedName(row.handle)
    ensures NoneReserved(Inserted(book, row).0)
  {
  }

  lemma DoneUnreserved(book: Book, d: Deed)
    requires NoneReserved(book)
    ensures NoneReserved(Done(book, d))
  {
    match d
    case SignUp(email, strong) => RegisterUnreserved(book, email, strong);
    case Provider(p) => ProviderUnreserved(book, p);
    case SetAccount(u, state) =>
  }

  lemma RegisterUnreserved(book: Book, email: string, strong: bool)
    requires NoneReserved(book)
    ensures NoneReserved(Register(book, email, strong).0)
  {
    var handle := NewHandle(book, [NormaliseEmail(email)]);
    GivenIsUnreserved(HandlesTaken(book), |book.accounts|, [NormaliseEmail(email)]);
    InsertedUnreserved(book, Account(handle, NormaliseEmail(email), false, ActiveAccount));
  }

  lemma ProviderUnreserved(book: Book, p: Profile)
    requires NoneReserved(book)
    ensures NoneReserved(LinkOrCreate(book, p).0)
  {
    var handle := NewHandle(book, [p.username, p.email]);
    GivenIsUnreserved(HandlesTaken(book), |book.accounts|, [p.username, p.email]);
    InsertedUnreserved(book, Account(handle, NormaliseEmail(p.email), p.emailVerified, ActiveAccount));
  }

  lemma {:induction false} RunUnreserved(book: Book, ds: seq<Deed>)
    requires NoneReserved(book)
    ensures NoneReserved(AllDone(book, ds))
    decreases |ds|
  {
    if ds != [] {
      DoneUnreserved(book, ds[0]);
      RunUnreserved(Done(book, ds[0]), ds[1..]);
    }
  }

  /** In every run no sign-up, on either route, ever gives a reserved name away. */
  lemma NobodyIsReserved(ds: seq<Deed>, u: UserId)
    ensures var book := AllDone(Book(map[], map[], 0), ds);
      u in book.accounts ==> !IsReservedName(book.accounts[u].handle)
  {
    RunUnreserved(Book(map[], map[], 0), ds);
  }

  /** A suffixed name is never reserved, and a handle as far as its number leaves room. */
  lemma SuffixedIsAccepted(stem: string, k: nat)
    requires IsStem(stem) && stem != ""
    ensures var handle := Suffixed(stem, k);
      && !EndsInHyphen(handle)
      && (NormaliseHandle(handle) == Ok(handle) <==> |handle| <= 39)
  {
    var handle := Suffixed(stem, k);
    DecimalReadsBack(k);
    SuffixedNotReserved(stem, k);
    if |handle| <= 39 {
      assert IsHandle(handle);
      HandleIsPlain(handle);
    } else if NormaliseHandle(handle).Ok? {
      AcceptedHandleIsFixed(handle);
    }
  }

  lemma AttemptIsAccepted(taken: set<string>, stem: string, k: nat)
    requires IsStem(stem) && 1 <= |stem| <= STEM_LIMIT && 1 <= k < 1000 && IsFree(taken, Attempt(stem, k))
    ensures var handle := Attempt(stem, k);
      |handle| <= 39 && (NormaliseHandle(handle) == Ok(handle) <==> !EndsInHyphen(handle))
  {
    if k >= 2 {
      SuffixedIsHandle(stem, k);
      SuffixedIsAccepted(stem, k);
    } else if EndsInHyphen(stem) {
      if NormaliseHandle(stem).Ok? {
        AcceptedHandleIsFixed(stem);
      }
    } else {
      HandleIsPlain(stem);
    }
  }

  /** A handle the sign-up chooses, however many are taken, is one the catalog accepts as it stands,
      except for a bare stem whose cut landed on a hyphen, and for a fallback with a number of 35
      digits or more. */
  lemma AllocatedIsAccepted(taken: set<string>, count: nat, candidates: seq<string>)
    ensures var handle := Allocated(taken, count, candidates);
      && (NormaliseHandle(handle) == Ok(handle) <==> !EndsInHyphen(handle) && |handle| <= 39)
      && (EndsInHyphen(handle) ==> handle == StemFrom(candidates))
      && (|handle| > 39 ==> handle == Suffixed(FALLBACK, count + 1) && Pow10(34) <= count + 1)
  {
    StemIsLegal(candidates);
    AllocatedShape(taken, count, candidates);
    GivenIsAccepted(taken, StemFrom(candidates), count, Allocated(taken, count, candidates));
  }

  lemma GivenIsAccepted(taken: set<string>, stem: string, count: nat, handle: string)
    requires IsStem(stem) && 1 <= |stem| <= STEM_LIMIT
    requires handle == Suffixed(FALLBACK, count + 1) || IsAttempt(taken, stem, handle)
    ensures NormaliseHandle(handle) == Ok(handle) <==> !EndsInHyphen(handle) && |handle| <= 39
    ensures EndsInHyphen(handle) ==> handle == stem
    ensures |handle| > 39 ==> handle == Suffixed(FALLBACK, count + 1) && Pow10(34) <= count + 1
  {
    if handle == Suffixed(FALLBACK, count + 1) {
      SuffixedIsAccepted(FALLBACK, count + 1);
      DigitsExactly(count + 1, 34);
    } else {
      var k: nat :| 1 <= k < 1000 && handle == Attempt(stem, k) && IsFree(taken, handle);
      AttemptIsAccepted(taken, stem, k);
      if k >= 2 {
        SuffixedIsAccepted(stem, k);
      }
    }
  }

  /** An entry's identifier names its owner and its model without ambiguity. */
  lemma EntryIdNamesModel(h1: string, s1: string, h2: string, s2: string)
    requires IsHandle(h1) && IsHandle(h2) && EntryId(h1, s1) == EntryId(h2, s2)
    ensures h1 == h2 && s1 == s2
  {
    var a, b := EntryId(h1, s1), EntryId(h2, s2);
    assert a[1 + |h1|] == '/' && b[1 + |h2|] == '/';
    assert forall i | 0 <= i < |h1| :: a[1 + i] == h1[i];
    assert forall i | 0 <= i < |h2| :: b[1 + i] == h2[i];
    assert |h1| == |h2|;
    assert a[1..1 + |h1|] == h1 && b[1..1 + |h2|] == h2;
    assert a[2 + |h1|..] == s1 && b[2 + |h2|..] == s2;
  }
}
