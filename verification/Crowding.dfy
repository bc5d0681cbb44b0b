/** A run of sign-ups that spends every attempt and the fallback, so that the next one is refused. */
module Crowding {
  import opened Basics
  import opened Text
  import opened Handles
  import opened Stems
  import opened Schema
  import opened Credentials
  import opened Accounts

  // ----- the crowd -----

  /** The k-th person to come from a provider, under the given name and an address of their own. */
  function Newcomer(k: nat, name: string): Profile {
    Profile(Subject("p", Decimal(k)), Decimal(k), true, name)
  }

  function Crowd(n: nat): seq<Deed> {
    if n == 0 then [] else Crowd(n - 1) + [Provider(Newcomer(n, "reference"))]
  }

  function Nobody(): Book {
    Book(map[], map[], 0)
  }

  lemma AddressOf(k: nat)
    ensures NormaliseEmail(Decimal(k)) == Decimal(k) && Decimal(k) != ""
  {
    DecimalReadsBack(k);
    StrippedStays(Decimal(k));
    NoneLowered(Decimal(k));
  }

  lemma DecimalsDiffer(i: nat, j: nat)
    requires Decimal(i) == Decimal(j)
    ensures i == j
  {
    DecimalReadsBack(i);
    DecimalReadsBack(j);
  }

  predicate IsUpTo(s: string, n: nat) {
    exists k: nat | k <= n :: s == Decimal(k)
  }

  /** Only the first `n` newcomers are in the book. */
  ghost predicate Holds(book: Book, n: nat) {
    && Consistent(book) && |book.accounts| == n
    && (forall u | u in book.accounts :: IsUpTo(book.accounts[u].email, n))
    && (forall who | who in book.links :: IsUpTo(who.subject, n))
  }

  lemma NewAmong(book: Book, n: nat, name: string)
    requires Holds(book, n)
    ensures var p := Newcomer(n + 1, name);
      && p.who !in book.links && p.email != "" && forall u | u in book.accounts :: !Has(book, u, p.email)
  {
    AddressOf(n + 1);
    HasExactly(book, Decimal(n + 1));
    forall k: nat | k <= n ensures Decimal(k) != Decimal(n + 1) {
      if Decimal(k) == Decimal(n + 1) {
        DecimalsDiffer(k, n + 1);
      }
    }
  }

  /** The book with one account more, under a handle and a link that are new. */
  function Added(book: Book, row: Account, who: Subject): Book {
    Book(book.accounts[book.nextUser := row], book.links[who := book.nextUser], book.nextUser + 1)
  }

  function NewRow(book: Book, p: Profile): Account {
    Account(NewHandle(book, [p.username, p.email]), NormaliseEmail(p.email), p.emailVerified, ActiveAccount)
  }

  /** What a login leaves when nobody is linked to it or has its address. */
  lemma CreatedBook(book: Book, p: Profile, row: Account)
    requires p.who !in book.links && p.email != "" && Lookup(book, p.email).None? && row == NewRow(book, p)
    ensures row.handle in HandlesTaken(book) ==> LinkOrCreate(book, p) == (book, Err(HandleClash))
    ensures row.handle !in HandlesTaken(book) ==> LinkOrCreate(book, p) == (Added(book, row, p.who), Ok(book.nextUser))
  {
    CreatedRow(book, p);
    CreatedLink(book, p);
    InsertedRow(book, row, p.who);
  }

  lemma InsertedRow(book: Book, row: Account, who: Subject)
    ensures row.handle in HandlesTaken(book) ==> Inserted(book, row) == (book, Err(HandleClash))
    ensures row.handle !in HandlesTaken(book) ==>
      Inserted(book, row).1 == Ok(book.nextUser)
      && Linked(Inserted(book, row).0, who, book.nextUser) == Added(book, row, who)
  {
  }

  lemma StillHolds(book: Book, n: nat, row: Account, who: Subject)
    requires Holds(book, n) && row.email == Decimal(n + 1) && who.subject == Decimal(n + 1)
    requires Consistent(Added(book, row, who))
    ensures Holds(Added(book, row, who), n + 1)
  {
    CountOne(book.accounts, book.nextUser, row);
    EmailsUpTo(book.accounts, n, book.nextUser, row);
    LinksUpTo(book.links, n, who, book.nextUser);
  }

  lemma CountOne(accounts: map<UserId, Account>, u: UserId, row: Account)
    requires u !in accounts
    ensures |accounts[u := row]| == |accounts| + 1
  {
    assert accounts[u := row].Keys == accounts.Keys + {u};
    assert |accounts[u := row].Keys| == |accounts.Keys| + 1;
  }

  lemma EmailsUpTo(accounts: map<UserId, Account>, n: nat, u: UserId, row: Account)
    requires row.email == Decimal(n + 1) && forall v | v in accounts :: IsUpTo(accounts[v].email, n)
    ensures var after := accounts[u := row]; forall v | v in after.Keys :: IsUpTo(after[v].email, n + 1)
  {
    UpToMore(n);
  }

  lemma LinksUpTo(links: map<Subject, UserId>, n: nat, who: Subject, u: UserId)
    requires who.subject == Decimal(n + 1) && forall x | x in links :: IsUpTo(x.subject, n)
    ensures forall x | x in links[who := u] :: IsUpTo(x.subject, n + 1)
  {
    UpToMore(n);
  }

  /** A newcomer whose handle is free joins the book under it. */
  lemma Joins(book: Book, n: nat, name: string)
    requires Holds(book, n) && NewHandle(book, [name, Decimal(n + 1)]) !in HandlesTaken(book)
    ensures var book1 := Done(book, Provider(Newcomer(n + 1, name)));
      Holds(book1, n + 1) && HandlesTaken(book1) == HandlesTaken(book) + {NewHandle(book, [name, Decimal(n + 1)])}
  {
    var p := Newcomer(n + 1, name);
    var row := NewRow(book, p);
    NewAmong(book, n, name);
    AddressOf(n + 1);
    AddressUnknown(book, p.email);
    CreatedBook(book, p, row);
    ProviderConsistent(book, p);
    StillHolds(book, n, row, p.who);
    HandlesAfter(book, row, p.who);
  }

  lemma CreatedRow(book: Book, p: Profile)
    requires p.email != "" && Lookup(book, p.email).None?
    ensures FromProfile(book, p) == Inserted(book, NewRow(book, p))
  {
  }

  lemma CreatedLink(book: Book, p: Profile)
    requires p.who !in book.links && Lookup(book, p.email).None?
    ensures var (book1, created) := FromProfile(book, p);
      LinkOrCreate(book, p) == if created.Err? then (book1, created) else (Linked(book1, p.who, created.value), created)
  {
  }

  lemma UpToMore(n: nat)
    ensures IsUpTo(Decimal(n + 1), n + 1)
    ensures forall s | IsUpTo(s, n) :: IsUpTo(s, n + 1)
  {
  }

  lemma AddressUnknown(book: Book, email: string)
    requires Consistent(book) && forall u | u in book.accounts :: !Has(book, u, email)
    ensures Lookup(book, email).None?
  {
    HasExactly(book, email);
  }

  lemma HandlesAfter(book: Book, row: Account, who: Subject)
    requires Consistent(book)
    ensures HandlesTaken(Added(book, row, who)) == HandlesTaken(book) + {row.handle}
  {
    var accounts := book.accounts[book.nextUser := row];
    var after := set u | u in accounts :: accounts[u].handle;
    forall h | h in HandlesTaken(book) + {row.handle} ensures h in after {
      if h == row.handle {
        assert accounts[book.nextUser].handle == h;
      } else {
        var u :| u in book.accounts && book.accounts[u].handle == h;
        assert accounts[u].handle == h;
      }
    }
    assert after == HandlesTaken(book) + {row.handle};
  }

  lemma NextSuffix(n: nat)
    requires n < 998
    ensures Search(SuffixedBelow("reference", n + 2), "reference", 1) == Some(n + 2)
  {
    var taken := SuffixedBelow("reference", n + 2);
    var found := Search(taken, "reference", 1);
    assert Attempt("reference", 1) in RESERVED_HANDLES;
    assert IsFree(taken, Attempt("reference", n + 2)) by {
      SuffixedNotReserved("reference", n + 2);
      forall k: nat | Suffixed("reference", k) == Suffixed("reference", n + 2) ensures k == n + 2 {
        SuffixesDiffer("reference", k, n + 2);
      }
    }
    assert forall k: nat | 2 <= k < n + 2 :: Attempt("reference", k) in taken;
  }

  lemma NextHandle(n: nat, count: nat, email: string)
    requires n < 998
    ensures Allocated(SuffixedBelow("reference", n + 2), count, ["reference", email]) == Suffixed("reference", n + 2)
  {
    StemIs("reference", email);
    NextSuffix(n);
  }

  lemma OneMoreSuffix(n: nat)
    ensures SuffixedBelow("reference", n + 3) == SuffixedBelow("reference", n + 2) + {Suffixed("reference", n + 2)}
  {
  }

  /** The crowd takes the suffixes one after the other. */
  lemma {:induction false} CrowdTakesSuffixes(n: nat)
    requires n <= 998
    ensures var book := AllDone(Nobody(), Crowd(n));
      Holds(book, n) && HandlesTaken(book) == SuffixedBelow("reference", n + 2)
  {
    if n > 0 {
      var book := AllDone(Nobody(), Crowd(n - 1));
      CrowdTakesSuffixes(n - 1);
      NextHandle(n - 1, n - 1, Decimal(n));
      OneMoreSuffix(n - 1);
      SuffixesNew(n - 1);
      Joins(book, n - 1, "reference");
      DoneLast(Nobody(), Crowd(n - 1), Provider(Newcomer(n, "reference")));
    }
  }

  lemma SuffixesNew(n: nat)
    ensures Suffixed("reference", n + 2) !in SuffixedBelow("reference", n + 2)
  {
    forall k: nat | Suffixed("reference", k) == Suffixed("reference", n + 2) ensures k == n + 2 {
      SuffixesDiffer("reference", k, n + 2);
    }
  }

  lemma {:induction false} DoneLast(book: Book, ds: seq<Deed>, d: Deed)
    ensures AllDone(book, ds + [d]) == Done(AllDone(book, ds), d)
    decreases |ds|
  {
    if ds == [] {
      assert ds + [d] == [d] && [d][1..] == [];
      assert AllDone(book, [d]) == AllDone(Done(book, d), []);
    } else {
      assert (ds + [d])[1..] == ds[1..] + [d];
      DoneLast(Done(book, ds[0]), ds[1..], d);
    }
  }

  lemma ThousandIsTaken()
    ensures Suffixed(FALLBACK, 1000) == "user-1000"
  {
    assert Decimal(1) == "1" && Decimal(10) == "10" && Decimal(100) == "100";
    assert Decimal(1000) == "1000";
  }

  /** `n` people called "reference", and then one called "user-1000". */
  function FullHouse(n: nat): seq<Deed> {
    Crowd(n) + [Provider(Newcomer(n + 1, "user-1000"))]
  }

  lemma ThousandIsFree(n: nat, count: nat, email: string)
    ensures Allocated(SuffixedBelow("reference", n), count, ["user-1000", email]) == "user-1000"
    ensures "user-1000" !in SuffixedBelow("reference", n)
  {
    StemIs("user-1000", email);
    ThousandIsTaken();
    SuffixedNotReserved(FALLBACK, 1000);
    forall k: nat ensures Suffixed("reference", k) != "user-1000" {
      assert Suffixed("reference", k)[0] == 'r' && "user-1000"[0] == 'u';
    }
    StemIsFree(SuffixedBelow("reference", n), count, ["user-1000", email]);
  }

  lemma LastJoins(book: Book, n: nat)
    requires Holds(book, n) && HandlesTaken(book) == SuffixedBelow("reference", n + 2)
    ensures var book1 := Done(book, Provider(Newcomer(n + 1, "user-1000")));
      Holds(book1, n + 1) && HandlesTaken(book1) == HandlesTaken(book) + {"user-1000"}
  {
    ThousandIsFree(n + 2, n, Decimal(n + 1));
    assert NewHandle(book, ["user-1000", Decimal(n + 1)]) == "user-1000";
    Joins(book, n, "user-1000");
  }

  lemma HouseIsFull(n: nat)
    requires n <= 998
    ensures var book := AllDone(Nobody(), FullHouse(n));
      Holds(book, n + 1) && HandlesTaken(book) == SuffixedBelow("reference", n + 2) + {"user-1000"}
  {
    CrowdTakesSuffixes(n);
    LastJoins(AllDone(Nobody(), Crowd(n)), n);
    DoneLast(Nobody(), Crowd(n), Provider(Newcomer(n + 1, "user-1000")));
  }

  lemma NobodyLeft(taken: set<string>, count: nat, email: string)
    requires taken == SuffixedBelow("reference", 1000) + {"user-1000"} && count == 999
    ensures Allocated(taken, count, ["reference", email]) in taken
  {
    ThousandIsTaken();
    FallbackMayBeTaken(taken);
    StemIs("reference", email);
    AllocationClashes(taken, count, ["reference", email]);
  }

  /** The fallback can collide, in a run of nothing but provider sign-ups: the next person called
      "reference" is refused, with an address and a link nobody has. */
  lemma NextIsRefused(n: nat)
    requires n == 998
    ensures var book, p := AllDone(Nobody(), FullHouse(n)), Newcomer(n + 2, "reference");
      && |book.accounts| == n + 1 && p.who !in book.links && (forall u | u in book.accounts :: !Has(book, u, p.email))
      && NewHandle(book, [p.username, p.email]) in HandlesTaken(book)
      && LinkOrCreate(book, p) == (book, Err(HandleClash))
  {
    var book, p := AllDone(Nobody(), FullHouse(n)), Newcomer(n + 2, "reference");
    HouseIsFull(n);
    NobodyLeft(HandlesTaken(book), n + 1, p.email);
    NewAmong(book, n + 1, "reference");
    AddressUnknown(book, p.email);
    CreatedBook(book, p, NewRow(book, p));
  }
}
