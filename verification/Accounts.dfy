/** The account book: registrations, provider logins and the links they leave, over whole runs.
    Passwords are left abstract: a registration says whether the policy accepts its own. */
module Accounts {
  import opened Basics
  import opened Text
  import opened Addresses
  import opened Handles
  import opened Schema
  import opened Credentials

  datatype Account = Account(handle: string, email: string, emailVerified: bool, state: AccountState)

  /** The provider and its own immutable name for the person. */
  datatype Subject = Subject(provider: string, subject: string)

  datatype Profile = Profile(who: Subject, email: string, emailVerified: bool, username: string)

  datatype Book = Book(accounts: map<UserId, Account>, links: map<Subject, UserId>, nextUser: nat)

  datatype Objection = WeakPassword | AddressTaken | NoAddress | LinkedInactive | HandleClash

  function ByEmail(accounts: map<UserId, Account>, n: nat, address: string): (r: Option<UserId>)
    ensures r.Some? ==> r.value < n && r.value in accounts && accounts[r.value].email == address
    ensures r.None? ==> forall u: nat | u < n && u in accounts :: accounts[u].email != address
  {
    if n == 0 then None
    else if n - 1 in accounts && accounts[n - 1].email == address then Some(n - 1)
    else ByEmail(accounts, n - 1, address)
  }

  function Lookup(book: Book, email: string): Option<UserId> {
    ByEmail(book.accounts, book.nextUser, NormaliseEmail(email))
  }

  function HandlesTaken(book: Book): set<string> {
    set u | u in book.accounts :: book.accounts[u].handle
  }

  function NewHandle(book: Book, candidates: seq<string>): string {
    Allocated(HandlesTaken(book), |book.accounts|, candidates)
  }

  /** The insert, which the unique index on handles may still refuse. */
  function Inserted(book: Book, row: Account): (Book, Result<UserId, Objection>) {
    if row.handle in HandlesTaken(book) then (book, Err(HandleClash))
    else (book.(accounts := book.accounts[book.nextUser := row], nextUser := book.nextUser + 1), Ok(book.nextUser))
  }

  function Register(book: Book, email: string, strong: bool): (Book, Result<UserId, Objection>) {
    var address := NormaliseEmail(email);
    if !strong then (book, Err(WeakPassword))
    else if Lookup(book, address).Some? then (book, Err(AddressTaken))
    else Inserted(book, Account(NewHandle(book, [address]), address, false, ActiveAccount))
  }

  function Adoptable(book: Book, p: Profile): Option<UserId> {
    if p.email == "" || !p.emailVerified then None else Lookup(book, p.email)
  }

  function FromProfile(book: Book, p: Profile): (Book, Result<UserId, Objection>) {
    if p.email == "" then (book, Err(NoAddress))
    else if Lookup(book, p.email).Some? then (book, Err(AddressTaken))
    else
      var handle := NewHandle(book, [p.username, p.email]);
      Inserted(book, Account(handle, NormaliseEmail(p.email), p.emailVerified, ActiveAccount))
  }

  function Linked(book: Book, who: Subject, u: UserId): Book {
    book.(links := book.links[who := u])
  }

  function LinkOrCreate(book: Book, p: Profile): (Book, Result<UserId, Objection>) {
    if p.who in book.links then
      var u := book.links[p.who];
      if u in book.accounts && book.accounts[u].state == ActiveAccount then (book, Ok(u))
      else (book, Err(LinkedInactive))
    else if Adoptable(book, p).Some? then
      (Linked(book, p.who, Adoptable(book, p).value), Ok(Adoptable(book, p).value))
    else
      var (book1, created) := FromProfile(book, p);
      if created.Err? then (book1, created) else (Linked(book1, p.who, created.value), created)
  }

  class AccountTable {
    var accounts: map<UserId, Account>
    var links: map<Subject, UserId>
    var nextUser: nat

    function View(): Book
      reads this
    {
      Book(accounts, links, nextUser)
    }

    method Insert(row: Account) returns (r: Result<UserId, Objection>)
      modifies this
      ensures (View(), r) == Inserted(old(View()), row)
    {
      if row.handle in HandlesTaken(View()) {
        return Err(HandleClash);
      }
      accounts := accounts[nextUser := row];
      r := Ok(nextUser);
      nextUser := nextUser + 1;
    }

    method RegisterAccount(email: string, strong: bool) returns (r: Result<UserId, Objection>)
      modifies this
      ensures (View(), r) == Register(old(View()), email, strong)
    {
      var address := NormaliseEmail(email);
      if !strong {
        return Err(WeakPassword);
      }
      if Lookup(View(), address).Some? {
        return Err(AddressTaken);
      }
      var handle := Allocate(HandlesTaken(View()), |accounts|, [address]);
      r := Insert(Account(handle, address, false, ActiveAccount));
    }

    method LinkOrCreateAccount(p: Profile) returns (r: Result<UserId, Objection>)
      modifies this
      ensures (View(), r) == LinkOrCreate(old(View()), p)
    {
      if p.who in links {
        var u := links[p.who];
        if u !in accounts || accounts[u].state != ActiveAccount {
          return Err(LinkedInactive);
        }
        return Ok(u);
      }
      var existing := Adoptable(View(), p);
      if existing.Some? {
        r := Ok(existing.value);
      } else {
        r := CreateFromProfile(p);
        if r.Err? {
          return;
        }
      }
      links := links[p.who := r.value];
    }

    method CreateFromProfile(p: Profile) returns (r: Result<UserId, Objection>)
      modifies this
      ensures (View(), r) == FromProfile(old(View()), p)
    {
      if p.email == "" {
        return Err(NoAddress);
      }
      if Lookup(View(), p.email).Some? {
        return Err(AddressTaken);
      }
      var handle := Allocate(HandlesTaken(View()), |accounts|, [p.username, p.email]);
      r := Insert(Account(handle, NormaliseEmail(p.email), p.emailVerified, ActiveAccount));
    }
  }

  // ----- runs -----

  datatype Deed =
    | SignUp(email: string, strong: bool)
    | Provider(p: Profile)
    | SetAccount(u: UserId, state: AccountState)

  function Done(book: Book, d: Deed): Book {
    match d
    case SignUp(email, strong) => Register(book, email, strong).0
    case Provider(p) => LinkOrCreate(book, p).0
    case SetAccount(u, state) =>
      if u in book.accounts then book.(accounts := book.accounts[u := book.accounts[u].(state := state)]) else book
  }

  function AllDone(book: Book, ds: seq<Deed>): Book
    decreases |ds|
  {
    if ds == [] then book else AllDone(Done(book, ds[0]), ds[1..])
  }

  ghost predicate Consistent(book: Book) {
    && (forall u | u in book.accounts :: u < book.nextUser)
    && (forall u | u in book.accounts :: NormaliseEmail(book.accounts[u].email) == book.accounts[u].email)
    && (forall u, v | u in book.accounts && v in book.accounts
          && book.accounts[u].email == book.accounts[v].email :: u == v)
    && (forall u, v | u in book.accounts && v in book.accounts
          && book.accounts[u].handle == book.accounts[v].handle :: u == v)
    && (forall s | s in book.links :: book.links[s] in book.accounts)
  }

  /** What every later state keeps: accounts with their handle and address, and every link. */
  ghost predicate Continues(book: Book, later: Book) {
    && (forall u | u in book.accounts ::
          u in later.accounts && later.accounts[u].handle == book.accounts[u].handle
          && later.accounts[u].email == book.accounts[u].email)
    && (forall s | s in book.links :: s in later.links && later.links[s] == book.links[s])
  }

  lemma HandleIsNew(book: Book, handle: string)
    requires handle !in HandlesTaken(book)
    ensures forall u | u in book.accounts :: book.accounts[u].handle != handle
  {
    forall u | u in book.accounts ensures book.accounts[u].handle != handle {
      assert book.accounts[u].handle in HandlesTaken(book);
    }
  }

  lemma AddConsistent(book: Book, row: Account)
    requires Consistent(book) && NormaliseEmail(row.email) == row.email
    requires forall u | u in book.accounts ::
      book.accounts[u].email != row.email && book.accounts[u].handle != row.handle
    ensures var book1 := book.(accounts := book.accounts[book.nextUser := row], nextUser := book.nextUser + 1);
      Consistent(book1) && Continues(book, book1)
  {
  }

  lemma InsertConsistent(book: Book, row: Account)
    requires Consistent(book) && NormaliseEmail(row.email) == row.email
    requires forall u | u in book.accounts :: book.accounts[u].email != row.email
    ensures Consistent(Inserted(book, row).0) && Continues(book, Inserted(book, row).0)
    ensures Inserted(book, row).1.Ok? ==> Inserted(book, row).1.value in Inserted(book, row).0.accounts
    ensures Inserted(book, row).0.links == book.links
  {
    if row.handle !in HandlesTaken(book) {
      HandleIsNew(book, row.handle);
      AddConsistent(book, row);
    }
  }

  lemma AddressIsNew(book: Book, email: string)
    requires Consistent(book) && Lookup(book, email).None?
    ensures forall u | u in book.accounts :: book.accounts[u].email != NormaliseEmail(email)
  {
  }

  lemma RegisterConsistent(book: Book, email: string, strong: bool)
    requires Consistent(book)
    ensures Consistent(Register(book, email, strong).0) && Continues(book, Register(book, email, strong).0)
  {
    var address := NormaliseEmail(email);
    NormalisedIsFixed(email);
    if strong && Lookup(book, address).None? {
      AddressIsNew(book, address);
      InsertConsistent(book, Account(NewHandle(book, [address]), address, false, ActiveAccount));
    }
  }

  lemma ProfileConsistent(book: Book, p: Profile)
    requires Consistent(book)
    ensures var (book1, r) := FromProfile(book, p);
      Consistent(book1) && Continues(book, book1) && book1.links == book.links && (r.Ok? ==> r.value in book1.accounts)
  {
    NormalisedIsFixed(p.email);
    if p.email != "" && Lookup(book, p.email).None? {
      AddressIsNew(book, p.email);
      InsertConsistent(book,
        Account(NewHandle(book, [p.username, p.email]), NormaliseEmail(p.email), p.emailVerified, ActiveAccount));
    }
  }

  lemma LinkConsistent(book: Book, who: Subject, u: UserId)
    requires Consistent(book) && who !in book.links && u in book.accounts
    ensures Consistent(Linked(book, who, u)) && Continues(book, Linked(book, who, u))
  {
  }

  lemma ProviderConsistent(book: Book, p: Profile)
    requires Consistent(book)
    ensures var (book1, r) := LinkOrCreate(book, p);
      Consistent(book1) && Continues(book, book1) && (r.Ok? ==> p.who in book1.links && book1.links[p.who] == r.value)
  {
    if p.who !in book.links {
      if Adoptable(book, p).Some? {
        LinkConsistent(book, p.who, Adoptable(book, p).value);
      } else {
        ProfileConsistent(book, p);
        var (book1, created) := FromProfile(book, p);
        if created.Ok? {
          LinkConsistent(book1, p.who, created.value);
        }
      }
    }
  }

  lemma DoneConsistent(book: Book, d: Deed)
    requires Consistent(book)
    ensures Consistent(Done(book, d)) && Continues(book, Done(book, d))
  {
    match d
    case SignUp(email, strong) => RegisterConsistent(book, email, strong);
    case Provider(p) => ProviderConsistent(book, p);
    case SetAccount(u, state) => StateConsistent(book, u, state);
  }

  lemma StateConsistent(book: Book, u: UserId, state: AccountState)
    requires Consistent(book)
    ensures var book1 := Done(book, SetAccount(u, state)); Consistent(book1) && Continues(book, book1)
  {
    StateSet(book, u, state);
    RestatedConsistent(book, Done(book, SetAccount(u, state)));
  }

  /** Only the state changes. */
  lemma StateSet(book: Book, u: UserId, state: AccountState)
    ensures var book1 := Done(book, SetAccount(u, state));
      && book1.accounts.Keys == book.accounts.Keys && book1.links == book.links && book1.nextUser == book.nextUser
      && forall v | v in book.accounts ::
           book1.accounts[v].email == book.accounts[v].email && book1.accounts[v].handle == book.accounts[v].handle
  {
  }

  lemma RestatedConsistent(book: Book, book1: Book)
    requires Consistent(book) && book1.accounts.Keys == book.accounts.Keys
    requires book1.links == book.links && book1.nextUser == book.nextUser
    requires forall v | v in book.accounts ::
      book1.accounts[v].email == book.accounts[v].email && book1.accounts[v].handle == book.accounts[v].handle
    ensures Consistent(book1) && Continues(book, book1)
  {
  }

  lemma {:induction false} AllConsistent(book: Book, ds: seq<Deed>)
    requires Consistent(book)
    ensures Consistent(AllDone(book, ds)) && Continues(book, AllDone(book, ds))
    decreases |ds|
  {
    if ds != [] {
      DoneConsistent(book, ds[0]);
      AllConsistent(Done(book, ds[0]), ds[1..]);
    }
  }

  /** In every run from an empty book addresses stay in their stored form and unique, and so do
      handles. */
  lemma AddressesStayUnique(ds: seq<Deed>)
    ensures var book := AllDone(Book(map[], map[], 0), ds);
      && Consistent(book)
      && forall u, v | u in book.accounts && v in book.accounts && Has(book, u, book.accounts[v].email) :: u == v
  {
    var book := AllDone(Book(map[], map[], 0), ds);
    AllConsistent(Book(map[], map[], 0), ds);
    forall u, v | u in book.accounts && v in book.accounts && Has(book, u, book.accounts[v].email) ensures u == v {
      HasExactly(book, book.accounts[v].email);
    }
  }

  /** The account's address is this one, but for the case of letters and outer blanks. */
  ghost predicate Has(book: Book, u: UserId, email: string) {
    u in book.accounts && Alike(book.accounts[u].email, email)
  }

  /** In a consistent book that is what the lookup compares. */
  lemma HasExactly(book: Book, email: string)
    requires Consistent(book)
    ensures forall u | u in book.accounts :: Has(book, u, email) <==> book.accounts[u].email == NormaliseEmail(email)
  {
    forall u | u in book.accounts ensures Has(book, u, email) <==> book.accounts[u].email == NormaliseEmail(email) {
      StoredAlike(book.accounts[u].email, email);
    }
  }

  /** One account more, with these particulars, and nothing else changed but what is linked to it. */
  ghost predicate Gains(book: Book, book1: Book, u: UserId, email: string, verified: bool) {
    && u !in book.accounts && book1.accounts.Keys == book.accounts.Keys + {u}
    && (forall v | v in book.accounts :: book1.accounts[v] == book.accounts[v])
    && Has(book1, u, email) && book1.accounts[u].emailVerified == verified && book1.accounts[u].state == ActiveAccount
    && forall v | v in book.accounts :: book.accounts[v].handle != book1.accounts[u].handle
  }

  lemma InsertedGains(book: Book, row: Account, email: string)
    requires Consistent(book) && row.email == NormaliseEmail(email) && row.state == ActiveAccount
    ensures var (book1, r) := Inserted(book, row);
      && (r.Ok? <==> row.handle !in HandlesTaken(book)) && (r.Err? ==> r.error == HandleClash && book1 == book)
      && (r.Ok? ==> Gains(book, book1, r.value, email, row.emailVerified) && book1.links == book.links)
      && (r.Ok? ==> book1.accounts[r.value].handle == row.handle)
  {
    StoredForm(email);
    if row.handle !in HandlesTaken(book) {
      HandleIsNew(book, row.handle);
    }
  }

  /** A registration adds one account exactly when the password is
      strong, nobody has the address in its stored form, and a handle is left. Otherwise the book
      is as it was. */
  lemma RegisteredExactly(book: Book, email: string, strong: bool)
    requires Consistent(book)
    ensures var (book1, r) := Register(book, email, strong);
      && (r.Ok? <==> strong && (forall u | u in book.accounts :: !Has(book, u, email))
                     && NewHandle(book, [NormaliseEmail(email)]) !in HandlesTaken(book))
      && (r.Err? ==> book1 == book)
      && (r == Err(WeakPassword) <==> !strong)
      && (r == Err(AddressTaken) <==> strong && exists u | u in book.accounts :: Has(book, u, email))
      && (r.Err? ==> r.error == WeakPassword || r.error == AddressTaken || r.error == HandleClash)
      && (r.Ok? ==> Gains(book, book1, r.value, email, false) && book1.links == book.links)
  {
    var address := NormaliseEmail(email);
    NormalisedIsFixed(email);
    HasExactly(book, email);
    if strong && Lookup(book, address).None? {
      AddressIsNew(book, address);
      InsertedGains(book, Account(NewHandle(book, [address]), address, false, ActiveAccount), email);
    }
  }

  /** Who a provider login that is not linked yet ends with: the account with that address, when
      the provider verified it; a new account, when nobody has the address; and nobody otherwise.
      On success the link is added and no other, on refusal the book is as it was. */
  lemma LinkedExactly(book: Book, p: Profile)
    requires Consistent(book) && p.who !in book.links
    ensures var (book1, r) := LinkOrCreate(book, p);
      var known := p.email != "" && exists u | u in book.accounts :: Has(book, u, p.email);
      && (r.Ok? <==>
            if known then p.emailVerified
            else p.email != "" && NewHandle(book, [p.username, p.email]) !in HandlesTaken(book))
      && (r.Err? ==> book1 == book)
      && (r == Err(NoAddress) <==> p.email == "") && (r == Err(AddressTaken) <==> known && !p.emailVerified)
      && (r.Err? ==> r.error == NoAddress || r.error == AddressTaken || r.error == HandleClash)
      && (r.Ok? ==> book1.links == book.links[p.who := r.value])
      && (r.Ok? && known ==> Has(book, r.value, p.email) && book1.accounts == book.accounts)
      && (r.Ok? && !known ==> Gains(book, book1, r.value, p.email, p.emailVerified))
  {
    HasExactly(book, p.email);
    if p.email != "" && Lookup(book, p.email).None? {
      AddressIsNew(book, p.email);
      InsertedGains(book,
        Account(NewHandle(book, [p.username, p.email]), NormaliseEmail(p.email), p.emailVerified, ActiveAccount),
          p.email);
    } else if p.email != "" {
      assert Has(book, Lookup(book, p.email).value, p.email);
    }
  }

  function HandlesOf(accounts: map<UserId, Account>): set<string> {
    set u | u in accounts :: accounts[u].handle
  }

  lemma {:induction false} NoMoreHandles(accounts: map<UserId, Account>)
    ensures |HandlesOf(accounts)| <= |accounts|
    decreases |accounts|
  {
    if accounts != map[] {
      var u :| u in accounts;
      var rest := accounts - {u};
      assert rest.Keys == accounts.Keys - {u} && |rest.Keys| == |accounts.Keys| - 1;
      NoMoreHandles(rest);
      OneHandleMore(accounts, u, rest);
    }
  }

  lemma OneHandleMore(accounts: map<UserId, Account>, u: UserId, rest: map<UserId, Account>)
    requires u in accounts && rest == accounts - {u}
    ensures |HandlesOf(accounts)| <= |HandlesOf(rest)| + 1
  {
    forall h | h in HandlesOf(accounts) ensures h in HandlesOf(rest) + {accounts[u].handle} {
      var v :| v in accounts && accounts[v].handle == h;
      assert v == u || (v in rest && rest[v].handle == h);
    }
    SubsetIsSmaller(HandlesOf(accounts), HandlesOf(rest) + {accounts[u].handle});
  }

  lemma HandleIsLeft(book: Book, candidates: seq<string>)
    requires |book.accounts| < 998
    ensures NewHandle(book, candidates) !in HandlesTaken(book)
  {
    NoMoreHandles(book.accounts);
    assert HandlesTaken(book) == HandlesOf(book.accounts);
    AllocationIsLeastFree(HandlesTaken(book), |book.accounts|, candidates);
  }

  /** In any run that has fewer than 998 accounts so far no sign-up fails for want of a handle: a
      registration succeeds exactly for a strong password and an address nobody has, and a first
      provider login exactly for such an address or, if it is verified, a known one. */
  lemma SignUpNeverRunsOut(ds: seq<Deed>, email: string, strong: bool, p: Profile)
    requires var book := AllDone(Book(map[], map[], 0), ds); |book.accounts| < 998 && p.who !in book.links
    ensures var book := AllDone(Book(map[], map[], 0), ds);
      && (Register(book, email, strong).1.Ok? <==> strong && forall u | u in book.accounts :: !Has(book, u, email))
      && (LinkOrCreate(book, p).1.Ok? <==>
            p.email != "" && ((exists u | u in book.accounts :: Has(book, u, p.email)) ==> p.emailVerified))
  {
    var book := AllDone(Book(map[], map[], 0), ds);
    AddressesStayUnique(ds);
    HandleIsLeft(book, [NormaliseEmail(email)]);
    RegisteredExactly(book, email, strong);
    HandleIsLeft(book, [p.username, p.email]);
    LinkedExactly(book, p);
  }

  lemma LinkedLogin(book: Book, p: Profile, u: UserId)
    requires Consistent(book) && p.who in book.links && book.links[p.who] == u
    ensures u in book.accounts
    ensures LinkOrCreate(book, p)
         == (book, if book.accounts[u].state == ActiveAccount then Ok(u) else Err(LinkedInactive))
  {
  }

  /** A provider's account leads to one account for ever: after a login, whatever else happens and
      whatever address or name the provider reports, a later login ends in that account or is
      refused. */
  lemma LinkIsForever(book: Book, p: Profile, ds: seq<Deed>, again: Profile)
    requires Consistent(book) && again.who == p.who
    ensures LinkOrCreate(book, p).1.Ok? ==>
      var u := LinkOrCreate(book, p).1.value;
      var later := AllDone(LinkOrCreate(book, p).0, ds);
      && u in later.accounts
      && LinkOrCreate(later, again)
           == (later, if later.accounts[u].state == ActiveAccount then Ok(u) else Err(LinkedInactive))
  {
    if LinkOrCreate(book, p).1.Ok? {
      var book1 := LinkOrCreate(book, p).0;
      ProviderConsistent(book, p);
      AllConsistent(book1, ds);
      LinkedLogin(AllDone(book1, ds), again, book1.links[p.who]);
    }
  }

  /** A login whose address the provider did not verify reaches an account that was there before
      only over a link that was there before. A verified one may also reach the account with that
      address, and an account is created only for an address nobody has. */
  lemma UnverifiedNeverAdopts(book: Book, p: Profile)
    requires Consistent(book)
    ensures LinkOrCreate(book, p).1.Ok? ==>
      var u := LinkOrCreate(book, p).1.value;
      && (u in book.accounts && !(p.who in book.links && book.links[p.who] == u) ==>
            p.emailVerified && Has(book, u, p.email))
      && (u !in book.accounts ==> forall v | v in book.accounts :: !Has(book, v, p.email))
  {
    if p.who !in book.links {
      LinkedExactly(book, p);
    }
  }
}
