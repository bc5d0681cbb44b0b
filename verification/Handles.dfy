/** From the names a person brings to a free handle: the cleaning passes, an independent description of
    what they compute, the handle grammar, and the bounded search with its pigeonhole bound. */
module Handles {
  import opened Basics
  import opened Text

  const STEM_LIMIT := 30
  const FALLBACK := "user"

  const RESERVED_HANDLES: set<string> := {
    "reference", "bundled", "nir", "snntorch", "spikingjelly", "norse", "lava", "spikeforge",
    "capsize", "admin", "api", "hub", "internal", "oauth", "login", "logout", "activate",
    "settings", "about", "help", "support", "static", "assets", "docs", "www", "root", "me", "new"
  }

  /** The handle grammar: 1 to 39 lower-case letters, digits and hyphens, no hyphen at either end. */
  predicate IsHandle(s: string) {
    1 <= |s| <= 39 && IsAlnum(s[0]) && IsAlnum(s[|s| - 1])
    && forall i | 0 <= i < |s| :: IsAlnum(s[i]) || s[i] == '-'
  }

  predicate EndsInHyphen(s: string) {
    s != "" && s[|s| - 1] == '-'
  }

  // ----- cleaning -----

  predicate IsLegal(c: char) {
    IsAlnum(c) || c == '-'
  }

  function LocalPart(s: string): string {
    if s == "" || s[0] == '@' then "" else [s[0]] + LocalPart(s[1..])
  }

  function DropIllegal(s: string): (r: string)
    ensures |r| <= |s|
  {
    if s != "" && !IsLegal(s[0]) then DropIllegal(s[1..]) else s
  }

  /** Every run of illegal characters becomes one hyphen. */
  function ReplaceRuns(s: string): string
    decreases |s|
  {
    if s == "" then ""
    else if IsLegal(s[0]) then [s[0]] + ReplaceRuns(s[1..])
    else "-" + ReplaceRuns(DropIllegal(s[1..]))
  }

  function DropHyphens(s: string): (r: string)
    ensures |r| <= |s|
  {
    if s != "" && s[0] == '-' then DropHyphens(s[1..]) else s
  }

  /** Every run of hyphens becomes one hyphen. */
  function CollapseRuns(s: string): string
    decreases |s|
  {
    if s == "" then ""
    else if s[0] == '-' then "-" + CollapseRuns(DropHyphens(s[1..]))
    else [s[0]] + CollapseRuns(s[1..])
  }

  function TrimHyphens(s: string): string {
    if s != "" && s[|s| - 1] == '-' then TrimHyphens(s[..|s| - 1]) else s
  }

  function Cut(s: string): string {
    if |s| <= STEM_LIMIT then s else s[..STEM_LIMIT]
  }

  function LocalName(raw: string): string {
    LocalPart(Lower(Strip(raw)))
  }

  function Collapsed(local: string): string {
    TrimHyphens(DropHyphens(CollapseRuns(ReplaceRuns(local))))
  }

  function Clean(raw: string): string {
    Cut(Collapsed(LocalName(raw)))
  }

  function StemFrom(candidates: seq<string>): string {
    if candidates == [] then FALLBACK
    else if Clean(candidates[0]) != "" then Clean(candidates[0])
    else StemFrom(candidates[1..])
  }

  // ----- what cleaning means -----

  function TakeAlnum(s: string): (r: string)
    ensures |r| <= |s| && forall i | 0 <= i < |r| :: IsAlnum(r[i])
    ensures s != "" && IsAlnum(s[0]) ==> r != ""
  {
    if s != "" && IsAlnum(s[0]) then [s[0]] + TakeAlnum(s[1..]) else ""
  }

  function DropOthers(s: string): (r: string)
    ensures |r| <= |s| && (r == "" || IsAlnum(r[0]))
  {
    if s != "" && !IsAlnum(s[0]) then DropOthers(s[1..]) else s
  }

  /** The maximal runs of letters and digits, in order. */
  function Words(s: string): (ws: seq<string>)
    ensures forall w | w in ws :: w != "" && forall i | 0 <= i < |w| :: IsAlnum(w[i])
    ensures s != "" && IsAlnum(s[0]) ==> ws != []
    decreases |s|
  {
    if s == "" then []
    else if !IsAlnum(s[0]) then Words(s[1..])
    else [TakeAlnum(s)] + Words(s[|TakeAlnum(s)|..])
  }

  function Join(ws: seq<string>): string {
    if ws == [] then "" else if |ws| == 1 then ws[0] else ws[0] + "-" + Join(ws[1..])
  }

  /** Every run of anything but letters and digits becomes one hyphen. */
  function Gaps(s: string): (r: string)
    ensures s != "" && IsAlnum(s[0]) ==> r != "" && r[0] == s[0]
    decreases |s|
  {
    if s == "" then ""
    else if IsAlnum(s[0]) then [s[0]] + Gaps(s[1..])
    else "-" + Gaps(DropOthers(s[1..]))
  }

  lemma {:induction false} OthersAfterIllegal(s: string)
    ensures DropOthers(DropIllegal(s)) == DropOthers(s)
    decreases |s|
  {
    if s != "" && !IsLegal(s[0]) {
      OthersAfterIllegal(s[1..]);
    }
  }

  lemma {:induction false} HyphensOfReplaced(s: string)
    ensures DropHyphens(ReplaceRuns(s)) == ReplaceRuns(DropOthers(s))
    decreases |s|
  {
    if s == "" || IsAlnum(s[0]) {
    } else if IsLegal(s[0]) {
      assert ReplaceRuns(s)[1..] == ReplaceRuns(s[1..]);
      HyphensOfReplaced(s[1..]);
    } else {
      var t := DropIllegal(s[1..]);
      assert ReplaceRuns(s)[1..] == ReplaceRuns(t);
      HyphensOfReplaced(t);
      OthersAfterIllegal(s[1..]);
    }
  }

  /** The two regular-expression passes together leave one hyphen per gap. */
  lemma {:induction false} TwoPasses(s: string)
    ensures CollapseRuns(ReplaceRuns(s)) == Gaps(s)
    decreases |s|
  {
    if s == "" {
    } else if IsAlnum(s[0]) {
      assert ReplaceRuns(s)[1..] == ReplaceRuns(s[1..]);
      TwoPasses(s[1..]);
    } else {
      var rest := DropOthers(s[1..]);
      var replaced := ReplaceRuns(s);
      HyphensOfReplaced(s);
      assert DropHyphens(replaced[1..]) == ReplaceRuns(rest);
      TwoPasses(rest);
    }
  }

  lemma LeadingGap(s: string)
    ensures DropHyphens(Gaps(s)) == Gaps(DropOthers(s))
  {
    if s != "" && !IsAlnum(s[0]) {
      var rest := DropOthers(s[1..]);
      assert Gaps(s)[1..] == Gaps(rest);
      assert DropHyphens(Gaps(rest)) == Gaps(rest);
    }
  }

  lemma {:induction false} WordThenRest(s: string)
    ensures var w := TakeAlnum(s); s[..|w|] == w && (s[|w|..] == "" || !IsAlnum(s[|w|]))
    decreases |s|
  {
    if s != "" && IsAlnum(s[0]) {
      WordThenRest(s[1..]);
      var w := TakeAlnum(s);
      assert s[1..][..|w| - 1] == s[1..|w|];
      assert s == [s[0]] + s[1..];
    }
  }

  lemma {:induction false} GapsAfterWord(s: string)
    ensures Gaps(s) == TakeAlnum(s) + Gaps(s[|TakeAlnum(s)|..])
    decreases |s|
  {
    if s != "" && IsAlnum(s[0]) {
      GapsAfterWord(s[1..]);
      assert s[1..][|TakeAlnum(s[1..])|..] == s[|TakeAlnum(s)|..];
    } else {
      assert s[0..] == s;
    }
  }

  lemma {:induction false} WordsSkip(s: string)
    ensures Words(DropOthers(s)) == Words(s)
    decreases |s|
  {
    if s != "" && !IsAlnum(s[0]) {
      WordsSkip(s[1..]);
    }
  }

  lemma {:induction false} TrimTail(a: string, b: string)
    requires TrimHyphens(b) != ""
    ensures TrimHyphens(a + b) == a + TrimHyphens(b)
    decreases |b|
  {
    if b[|b| - 1] == '-' {
      assert (a + b)[..|a + b| - 1] == a + b[..|b| - 1];
      TrimTail(a, b[..|b| - 1]);
    }
  }

  lemma {:induction false} TrimKeepsStart(s: string)
    requires s != "" && s[0] != '-'
    ensures TrimHyphens(s) != "" && TrimHyphens(s)[0] == s[0]
    decreases |s|
  {
    if s[|s| - 1] == '-' {
      TrimKeepsStart(s[..|s| - 1]);
    }
  }

  lemma GapFirst(t: string)
    requires t != "" && !IsAlnum(t[0])
    ensures Gaps(t) == "-" + Gaps(DropOthers(t))
  {
  }

  lemma Regroup(a: string, b: string, c: string)
    ensures a + (b + c) == a + b + c
  {
  }

  lemma WordFirst(s: string)
    requires s != "" && IsAlnum(s[0])
    ensures Words(s) == [TakeAlnum(s)] + Words(s[|TakeAlnum(s)|..])
  {
  }

  lemma OthersShorter(t: string)
    ensures |DropOthers(t)| <= |t|
  {
  }

  /** One word, a gap and more text, or nothing after it. */
  lemma WordGapRest(s: string, t: string, r: string)
    requires s != "" && IsAlnum(s[0]) && t == s[|TakeAlnum(s)|..] && t != "" && r == DropOthers(t)
    ensures Gaps(s) == TakeAlnum(s) + "-" + Gaps(r) && Words(s) == [TakeAlnum(s)] + Words(r) && |r| < |s|
  {
    var w := TakeAlnum(s);
    assert !IsAlnum(t[0]) by {
      WordThenRest(s);
    }
    assert Gaps(s) == w + "-" + Gaps(r) by {
      GapsAfterWord(s);
      GapFirst(t);
      Regroup(w, "-", Gaps(r));
    }
    assert Words(s) == [w] + Words(r) by {
      WordFirst(s);
      WordsSkip(t);
    }
    OthersShorter(t);
  }

  lemma TrimOne(w: string)
    requires w != "" && w[|w| - 1] != '-'
    ensures TrimHyphens(w) == w && TrimHyphens(w + "-") == w
  {
    assert (w + "-")[..|w|] == w;
  }

  /** For text that starts with a letter or digit, or is empty. */
  lemma {:induction false} TrimmedGapsAreWords(s: string)
    requires s == "" || IsAlnum(s[0])
    ensures TrimHyphens(Gaps(s)) == Join(Words(s))
    decreases |s|
  {
    if s != "" {
      var w := TakeAlnum(s);
      var t := s[|w|..];
      TrimOne(w);
      if t == "" {
        GapsAfterWord(s);
        assert Gaps(s) == w;
        assert Words(s) == [w];
      } else {
        var r := DropOthers(t);
        WordGapRest(s, t, r);
        TrimmedGapsAreWords(r);
        JoinWordRest(w, r);
      }
    }
  }

  lemma JoinWordRest(w: string, r: string)
    requires w != "" && w[|w| - 1] != '-' && (r == "" || IsAlnum(r[0]))
    requires TrimHyphens(Gaps(r)) == Join(Words(r))
    ensures TrimHyphens(w + "-" + Gaps(r)) == Join([w] + Words(r))
  {
    if r == "" {
      TrimOne(w);
      assert w + "-" + Gaps(r) == w + "-";
      assert [w] + Words(r) == [w];
    } else {
      TrimKeepsStart(Gaps(r));
      TrimTail(w + "-", Gaps(r));
      assert ([w] + Words(r))[1..] == Words(r);
    }
  }

  /** Cleaning, said once more and without the passes: take the local part of the candidate in
      lower case, keep its words of letters and digits, join them by single hyphens, and cut. */
  lemma CleanIsJoinedWords(raw: string)
    ensures Clean(raw) == Cut(Join(Words(LocalName(raw))))
  {
    var s := LocalName(raw);
    TwoPasses(s);
    LeadingGap(s);
    WordsSkip(s);
    TrimmedGapsAreWords(DropOthers(s));
  }

  // ----- the stem against the grammar -----

  /** Legal characters only, no hyphen at the start, no two hyphens in a row. */
  predicate IsStem(s: string) {
    && (forall i | 0 <= i < |s| :: IsLegal(s[i]))
    && (s != "" ==> s[0] != '-')
    && (forall i | 0 < i < |s| :: s[i] == '-' ==> s[i - 1] != '-')
  }

  lemma {:induction false} JoinedIsStem(ws: seq<string>)
    requires forall w | w in ws :: w != "" && forall i | 0 <= i < |w| :: IsAlnum(w[i])
    ensures IsStem(Join(ws)) && (ws != [] ==> Join(ws) != "" && IsAlnum(Join(ws)[|Join(ws)| - 1]))
    decreases |ws|
  {
    if |ws| > 1 {
      var rest := Join(ws[1..]);
      JoinedIsStem(ws[1..]);
      var s := ws[0] + "-" + rest;
      forall i | 0 < i < |s| && s[i] == '-' ensures s[i - 1] != '-' {
        if i > |ws[0]| {
          assert s[i] == rest[i - |ws[0]| - 1];
        }
      }
    }
  }

  /** The name a candidate would give if nothing were cut. */
  function FullName(raw: string): string {
    Join(Words(LocalName(raw)))
  }

  lemma {:induction false} StemOrigin(candidates: seq<string>)
    ensures StemFrom(candidates) == FALLBACK || exists c | c in candidates :: StemFrom(candidates) == Clean(c) != ""
    decreases |candidates|
  {
    if candidates != [] && Clean(candidates[0]) == "" {
      StemOrigin(candidates[1..]);
    } else if candidates != [] {
      assert candidates[0] in candidates;
    }
  }

  /** A cleaned candidate is a handle exactly when it is not empty and the cut, if there was one,
      did not land on a hyphen. */
  lemma CleanFitsGrammar(raw: string)
    ensures IsStem(Clean(raw)) && |Clean(raw)| <= STEM_LIMIT
    ensures Clean(raw) != "" ==>
      (IsHandle(Clean(raw)) <==> !(|FullName(raw)| > STEM_LIMIT && FullName(raw)[STEM_LIMIT - 1] == '-'))
  {
    CleanIsJoinedWords(raw);
    JoinedIsStem(Words(LocalName(raw)));
    var full := FullName(raw);
    if |full| <= STEM_LIMIT && full != "" {
      assert Words(LocalName(raw)) != [];
    }
  }

  /** Whatever the candidates: the stem has between 1 and 30 legal characters, does not start with a
      hyphen and has no two in a row. */
  lemma StemIsLegal(candidates: seq<string>)
    ensures 1 <= |StemFrom(candidates)| <= STEM_LIMIT && IsStem(StemFrom(candidates))
  {
    StemOrigin(candidates);
    if StemFrom(candidates) != FALLBACK {
      var c :| c in candidates && StemFrom(candidates) == Clean(c) != "";
      CleanFitsGrammar(c);
    }
  }

  lemma {:induction false} TakeWord(w: string, t: string)
    requires forall i | 0 <= i < |w| :: IsAlnum(w[i])
    requires t == "" || !IsAlnum(t[0])
    ensures TakeAlnum(w + t) == w
    decreases |w|
  {
    if w == "" {
      assert w + t == t;
    } else {
      assert (w + t)[1..] == w[1..] + t;
      TakeWord(w[1..], t);
    }
  }

  /** The grammar does fail: any 29 letters and digits, one separator and more letters give a stem
      that ends in a hyphen. */
  lemma CutOnHyphen(raw: string, w: string, v: string)
    requires LocalName(raw) == w + "." + v && |w| == STEM_LIMIT - 1 && v != ""
    requires forall i | 0 <= i < |w| :: IsAlnum(w[i])
    requires forall i | 0 <= i < |v| :: IsAlnum(v[i])
    ensures Clean(raw) == w + "-" && !IsHandle(Clean(raw))
  {
    TwoWords(w, v);
    CleanIsJoinedWords(raw);
    var full := w + "-" + v;
    assert Clean(raw) == full[..STEM_LIMIT];
    assert full[..STEM_LIMIT] == w + "-";
  }

  lemma OneWord(v: string)
    requires v != "" && forall i | 0 <= i < |v| :: IsAlnum(v[i])
    ensures Words(v) == [v]
  {
    assert v + "" == v;
    TakeWord(v, "");
    assert v[|v|..] == "";
  }

  lemma TwoWords(w: string, v: string)
    requires w != "" && v != ""
    requires forall i | 0 <= i < |w| :: IsAlnum(w[i])
    requires forall i | 0 <= i < |v| :: IsAlnum(v[i])
    ensures Join(Words(w + "." + v)) == w + "-" + v
  {
    var s, t := w + "." + v, "." + v;
    assert s == w + t && s[0] == w[0];
    TakeWord(w, t);
    assert s[|w|..] == t;
    assert Words(t) == Words(v) by {
      assert t[1..] == v;
    }
    OneWord(v);
    assert Words(s) == [w] + Words(t);
    assert Words(s) == [w, v] && [w, v][1..] == [v];
  }

  // ----- allocation -----

  predicate IsFree(taken: set<string>, handle: string) {
    handle !in RESERVED_HANDLES && handle !in taken
  }

  function Suffixed(stem: string, k: nat): string {
    stem + "-" + Decimal(k)
  }

  /** The candidates in the order they are tried: the stem, then the stem with 2 to 999. */
  function Attempt(stem: string, k: nat): string {
    if k < 2 then stem else Suffixed(stem, k)
  }

  /** The least free attempt from `k` on. */
  function Search(taken: set<string>, stem: string, k: nat): (r: Option<nat>)
    ensures r.Some? ==> k <= r.value < 1000 && IsFree(taken, Attempt(stem, r.value))
    ensures r.Some? ==> forall j: nat | k <= j < r.value :: !IsFree(taken, Attempt(stem, j))
    ensures r.None? ==> forall j: nat | k <= j < 1000 :: !IsFree(taken, Attempt(stem, j))
    decreases 1000 - k
  {
    if k >= 1000 then None
    else if IsFree(taken, Attempt(stem, k)) then Some(k)
    else Search(taken, stem, k + 1)
  }

  /** The least free attempt, or the fallback with one more than the number of accounts. */
  function Allocated(taken: set<string>, count: nat, candidates: seq<string>): string {
    var stem := StemFrom(candidates);
    var found := Search(taken, stem, 1);
    if found.Some? then Attempt(stem, found.value) else Suffixed(FALLBACK, count + 1)
  }

  method Allocate(taken: set<string>, count: nat, candidates: seq<string>) returns (handle: string)
    ensures handle == Allocated(taken, count, candidates)
  {
    var stem := StemFrom(candidates);
    if IsFree(taken, stem) {
      return stem;
    }
    var suffix: nat := 2;
    while suffix < 1000
      invariant 2 <= suffix <= 1000
      invariant Search(taken, stem, 1) == Search(taken, stem, suffix)
    {
      var attempt := Suffixed(stem, suffix);
      if IsFree(taken, attempt) {
        return attempt;
      }
      suffix := suffix + 1;
    }
    handle := Suffixed(FALLBACK, count + 1);
  }

  /** A suffixed stem is always a handle: the suffix leaves no hyphen at the end and there is room. */
  lemma SuffixedIsHandle(stem: string, k: nat)
    requires IsStem(stem) && 1 <= |stem| <= STEM_LIMIT && k < 1000
    ensures IsHandle(Suffixed(stem, k))
  {
    DecimalReadsBack(k);
    DigitsExactly(k, 3);
    assert Pow10(3) == 1000;
  }

  lemma SuffixesDiffer(stem: string, i: nat, j: nat)
    requires Suffixed(stem, i) == Suffixed(stem, j)
    ensures i == j
  {
    DecimalReadsBack(i);
    DecimalReadsBack(j);
    assert Suffixed(stem, i)[|stem| + 1..] == Decimal(i);
    assert Suffixed(stem, j)[|stem| + 1..] == Decimal(j);
  }

  function SuffixedBelow(stem: string, n: nat): set<string> {
    set k: nat | 2 <= k < n :: Suffixed(stem, k)
  }

  lemma {:induction false} CountSuffixed(stem: string, n: nat)
    requires n >= 2
    ensures |SuffixedBelow(stem, n)| == n - 2
  {
    if n == 2 {
      assert SuffixedBelow(stem, 2) == {};
    } else {
      CountSuffixed(stem, n - 1);
      assert SuffixedBelow(stem, n) == SuffixedBelow(stem, n - 1) + {Suffixed(stem, n - 1)};
      if Suffixed(stem, n - 1) in SuffixedBelow(stem, n - 1) {
        var k: nat :| 2 <= k < n - 1 && Suffixed(stem, k) == Suffixed(stem, n - 1);
        SuffixesDiffer(stem, k, n - 1);
      }
    }
  }

  lemma ReservedHaveNoHyphen(h: string)
    requires h in RESERVED_HANDLES
    ensures '-' !in h
  {
  }

  lemma SuffixedNotReserved(stem: string, k: nat)
    ensures Suffixed(stem, k) !in RESERVED_HANDLES
  {
    assert Suffixed(stem, k)[|stem|] == '-';
    if Suffixed(stem, k) in RESERVED_HANDLES {
      ReservedHaveNoHyphen(Suffixed(stem, k));
    }
  }

  lemma SubsetIsSmaller(a: set<string>, b: set<string>)
    requires a <= b
    ensures |a| <= |b|
  {
    assert b == a + (b - a);
  }

  /** By pigeonhole the search cannot run out while fewer than 998 handles are taken. */
  lemma SearchSucceeds(taken: set<string>, stem: string)
    requires |taken| < 998
    ensures Search(taken, stem, 1).Some?
  {
    if Search(taken, stem, 1).None? {
      forall h | h in SuffixedBelow(stem, 1000) ensures h in taken {
        var k: nat :| 2 <= k < 1000 && h == Suffixed(stem, k);
        assert !IsFree(taken, Attempt(stem, k));
        SuffixedNotReserved(stem, k);
      }
      CountSuffixed(stem, 1000);
      SubsetIsSmaller(SuffixedBelow(stem, 1000), taken);
      assert false;
    }
  }

  /** What an account is given: below 998 taken handles, a handle that is free and not reserved, the
      first in the order of the attempts; and it fits the grammar unless it is
      a bare stem whose cut landed on a hyphen. */
  lemma AllocationIsLeastFree(taken: set<string>, count: nat, candidates: seq<string>)
    requires |taken| < 998
    ensures var stem, handle := StemFrom(candidates), Allocated(taken, count, candidates);
      && IsFree(taken, handle)
      && (exists k: nat | 1 <= k < 1000 ::
            handle == Attempt(stem, k) && forall j: nat | 1 <= j < k :: !IsFree(taken, Attempt(stem, j)))
      && (IsHandle(handle) <==> !(handle == stem && EndsInHyphen(stem)))
  {
    var stem := StemFrom(candidates);
    SearchSucceeds(taken, stem);
    StemIsLegal(candidates);
    var k := Search(taken, stem, 1).value;
    assert Allocated(taken, count, candidates) == Attempt(stem, k);
    if k >= 2 {
      SuffixedIsHandle(stem, k);
      assert |Suffixed(stem, k)| > |stem|;
    }
  }

  ghost predicate IsAttempt(taken: set<string>, stem: string, handle: string) {
    exists k: nat | 1 <= k < 1000 :: handle == Attempt(stem, k) && IsFree(taken, handle)
  }

  lemma FoundIsAttempt(taken: set<string>, stem: string, k: nat)
    requires Search(taken, stem, 1) == Some(k)
    ensures IsAttempt(taken, stem, Attempt(stem, k))
  {
    assert 1 <= k < 1000 && IsFree(taken, Attempt(stem, k));
  }

  /** What an account is given, however many handles are taken: a free attempt, or the fallback. */
  lemma AllocatedShape(taken: set<string>, count: nat, candidates: seq<string>)
    ensures var handle := Allocated(taken, count, candidates);
      handle == Suffixed(FALLBACK, count + 1) || IsAttempt(taken, StemFrom(candidates), handle)
  {
    var found := Search(taken, StemFrom(candidates), 1);
    if found.Some? {
      FoundIsAttempt(taken, StemFrom(candidates), found.value);
    }
  }

  ghost predicate AllSpent(taken: set<string>, stem: string) {
    forall k: nat | 1 <= k < 1000 :: !IsFree(taken, Attempt(stem, k))
  }

  lemma SpentExactly(taken: set<string>, stem: string)
    ensures Search(taken, stem, 1).None? <==> AllSpent(taken, stem)
  {
    var found := Search(taken, stem, 1);
    if found.Some? {
      assert !AllSpent(taken, stem) by {
        assert IsFree(taken, Attempt(stem, found.value));
      }
    }
  }

  /** An account is given a handle somebody has exactly when all attempts are spent and the fallback
      is taken as well. */
  lemma AllocationClashes(taken: set<string>, count: nat, candidates: seq<string>)
    ensures Allocated(taken, count, candidates) in taken <==>
      AllSpent(taken, StemFrom(candidates)) && Suffixed(FALLBACK, count + 1) in taken
  {
    SpentExactly(taken, StemFrom(candidates));
  }

  /** The bound is sharp: 998 accounts can hold every suffix of a reserved name. And the fallback
      is no way out: one more account can hold the fallback handle that is then returned. */
  lemma FallbackMayBeTaken(taken: set<string>)
    requires taken == SuffixedBelow("reference", 1000) + {Suffixed(FALLBACK, 1000)}
    ensures |SuffixedBelow("reference", 1000)| == 998
    ensures AllSpent(SuffixedBelow("reference", 1000), "reference") && AllSpent(taken, "reference")
    ensures |taken| == 999 && Suffixed(FALLBACK, |taken| + 1) in taken
  {
    CountSuffixed("reference", 1000);
    assert Suffixed(FALLBACK, 1000)[0] == 'u';
    assert Suffixed(FALLBACK, 1000) !in SuffixedBelow("reference", 1000);
    assert Attempt("reference", 1) in RESERVED_HANDLES;
  }
}
