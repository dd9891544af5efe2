/** Fitting a requested page to the retained history. */
module CursorAdjustment {
  import opened Network
  import opened Decimal
  import opened Paging
  import opened Toid
  import opened Effects

  datatype Problem = InvalidCursor | BeforeHistory

  datatype Adjusted = Serve(page: PageQuery) | Refuse(problem: Problem)

  /** validateCursorWithinHistory. */
  function Validate(elder: nat, page: PageQuery): Option<Problem> {
    var pair := CursorInt64Pair(page);
    var cursor := if '-' in page.cursor then (if pair.Some? then Some(pair.value.hi) else None) else CursorInt64(page);
    if cursor.None? then Some(InvalidCursor)
    else if cursor.value <= Encode(elder, 0, 0) then Some(BeforeHistory)
    else None
  }

  /** The cursor that ascending pages start from when the requested one is too old. */
  function StartOfHistory(elder: nat): string {
    Digits(AfterLedger(if elder < 1 then 0 else elder - 1))
  }

  /** validateAndAdjustCursor. */
  function Adjust(elder: nat, page: PageQuery): Adjusted {
    var err := Validate(elder, page);
    if page.order == Asc && (page.cursor == "" || err == Some(BeforeHistory))
    then Serve(page.(cursor := StartOfHistory(elder)))
    else if err.Some? then Refuse(err.value)
    else Serve(page)
  }

  /** LedgersQ.Page: a page by the id column; None when the cursor is refused. */
  function LedgersPage(t: seq<Key>, page: PageQuery, oldest: nat): Option<seq<Key>> {
    var bound := LowestLedgerBound(oldest);
    match CursorInt64(page)
    case None => None
    case Some(c) =>
      Some(Query(t, (k: Key) => if page.order == Asc then k.hi > c else (bound > 0 ==> k.hi > bound) && k.hi < c,
                 page.order, page.limit))
  }

  ghost predicate IsLedgerTable(t: seq<Key>) {
    Increasing(t) && forall i :: 0 <= i < |t| ==> 0 <= t[i].hi <= MAX_INT64 && t[i].lo == 0
  }

  /** Every row belongs to a ledger that exists and is not older than the elder one. */
  ghost predicate Retained(t: seq<Key>, elder: nat) {
    InRetained(t, if elder < 1 then 1 else elder)
  }

  lemma RetainedIsInRetained(t: seq<Key>, elder: nat)
    requires Retained(t, elder)
    ensures InRetained(t, elder)
  {
    assert Encode(0, 0, 0) <= Encode(1, 0, 0);
  }

  lemma StartOfHistoryParses(elder: nat, order: Order, limit: nat)
    requires elder <= MAX_INT32
    ensures var start := AfterLedger(if elder < 1 then 0 else elder - 1);
            && 0 <= start < Encode(if elder < 1 then 1 else elder, 0, 0)
            && CursorInt64(PageQuery(StartOfHistory(elder), order, limit)) == Some(start)
            && EffectsCursor(PageQuery(StartOfHistory(elder), order, limit)) == Some(Key(start, MAX_INT32))
  {
    var ledger := if elder < 1 then 0 else elder - 1;
    AfterLedgerIsLast(ledger);
    DigitsDenote(AfterLedger(ledger));
    ParseDigits(AfterLedger(ledger));
    SingleNumberSkips(AfterLedger(ledger), order, limit);
  }

  /** Both cursor parsers read the same first number. */
  lemma CursorsAgree(page: PageQuery)
    requires '-' !in page.cursor
    ensures CursorInt64(page) == match CursorInt64Pair(page) { case Some(c) => Some(c.hi) case None => None }
    ensures page.cursor != "" && CursorInt64Pair(page).Some? ==> CursorInt64Pair(page).value.lo == MAX_INT64
  {
    var s := page.cursor;
    var i := FirstDash(s);
    assert i == |s| && s[..|s|] == s;
  }

  lemma ValidateReadsEffectsCursor(elder: nat, page: PageQuery)
    ensures Validate(elder, page) ==
            match EffectsCursor(page) {
              case None => Some(InvalidCursor)
              case Some(c) => if c.hi <= Encode(elder, 0, 0) then Some(BeforeHistory) else None
            }
  {
    if '-' !in page.cursor {
      CursorsAgree(page);
    }
  }

  /** Exactly what is refused: unreadable cursors, and descending ones up to the elder ledger's own id. */
  lemma RefusedExactly(elder: nat, page: PageQuery)
    ensures Adjust(elder, page) == Refuse(BeforeHistory) <==>
            page.order == Desc && EffectsCursor(page).Some? && EffectsCursor(page).value.hi <= Encode(elder, 0, 0)
    ensures Adjust(elder, page) == Refuse(InvalidCursor) <==> EffectsCursor(page).None?
    ensures page.order == Desc && Adjust(elder, page).Serve? ==> Adjust(elder, page).page == page
  {
    ValidateReadsEffectsCursor(elder, page);
  }

  lemma AllPast(t: seq<Key>, c: Key)
    requires forall i :: 0 <= i < |t| ==> c.hi < t[i].hi
    ensures Select(t, Past(c, Asc)) == t
  {
    SelectSuffix(t, Past(c, Asc), 0);
  }

  /** Dropping a row from the front shows on every page. */
  lemma FirstRowShows(t: seq<Key>, c: Key, limit: nat)
    requires Increasing(t) && limit >= 1
    ensures Query(t, Past(c, Asc), Asc, limit) == (if |t| <= limit then t else t[..limit]) <==>
            forall i :: 0 <= i < |t| ==> Before(c, t[i])
  {
    var n := Cut(t, c, Asc);
    if n == 0 {
      assert t[0..] == t;
    } else {
      assert !Before(c, t[0]);
      var page := Query(t, Past(c, Asc), Asc, limit);
      assert page != [] ==> page[0] == t[n..][0] && Before(c, t[n]);
    }
  }

  /** A row the cursor passes over although the adjusted page serves it: it sits at the elder ledger's own id. */
  ghost predicate AtElder(t: seq<Key>, elder: nat, c: Key) {
    c.hi == Encode(elder, 0, 0) && exists i :: 0 <= i < |t| && t[i].hi == c.hi && t[i].lo <= c.lo
  }

  lemma NotPastIsAtElder(t: seq<Key>, elder: nat, c: Key)
    requires Increasing(t) && Retained(t, elder) && c.hi <= Encode(elder, 0, 0)
    ensures AtElder(t, elder, c) <==> !forall i :: 0 <= i < |t| ==> Before(c, t[i])
  {
    RetainedIsInRetained(t, elder);
    if i :| 0 <= i < |t| && !Before(c, t[i]) {
      assert t[i].hi >= Encode(elder, 0, 0);
      assert t[i].hi == c.hi && t[i].lo <= c.lo;
    }
  }

  /**
   * An ascending effects page is the same before and after adjustment exactly when the cursor does not sit at the elder
   * ledger's own id in front of a row stored there (no operation has such an id).
   */
  lemma AscendingEffects(t: seq<Key>, elder: nat, page: PageQuery, expanded: bool)
    requires IsTable(t) && Retained(t, elder) && elder <= MAX_INT32
    requires page.order == Asc && page.limit >= 1 && EffectsCursor(page).Some?
    ensures Adjust(elder, page).Serve?
    ensures EffectsPage(t, Adjust(elder, page).page, elder, expanded) == EffectsPage(t, page, elder, expanded) <==>
            !AtElder(t, elder, EffectsCursor(page).value)
  {
    var c := EffectsCursor(page).value;
    RetainedIsInRetained(t, elder);
    ValidateReadsEffectsCursor(elder, page);
    PageIsPastCursor(t, page, elder, expanded);
    if c.hi <= Encode(elder, 0, 0) {
      var adjusted := page.(cursor := StartOfHistory(elder));
      StartOfHistoryParses(elder, Asc, page.limit);
      PageIsPastCursor(t, adjusted, elder, expanded);
      AllPast(t, EffectsCursor(adjusted).value);
      FirstRowShows(t, c, page.limit);
      NotPastIsAtElder(t, elder, c);
    }
  }

  /** A descending ledgers page never serves a ledger older than the retained ones, even if its row is still there. */
  lemma DescendingLedgersAreRetained(t: seq<Key>, page: PageQuery, oldest: nat, k: Key)
    requires page.order == Desc && oldest > 2 && LedgersPage(t, page, oldest).Some?
    requires k in LedgersPage(t, page, oldest).value
    ensures k in t && k.hi >= Encode(oldest, 0, 0)
  {
    var c, bound := CursorInt64(page).value, LowestLedgerBound(oldest);
    AfterLedgerIsLast(oldest - 1);
    PageHolds(t, (k: Key) => if page.order == Asc then k.hi > c else (bound > 0 ==> k.hi > bound) && k.hi < c,
              page.order, page.limit, k);
  }

  lemma LedgersPageIsPastCursor(t: seq<Key>, page: PageQuery, oldest: nat)
    requires IsLedgerTable(t) && InRetained(t, oldest)
    ensures LedgersPage(t, page, oldest) ==
            match CursorInt64(page) {
              case None => None
              case Some(c) => Some(Query(t, Past(Key(c, 0), page.order), page.order, page.limit))
            }
  {
    if CursorInt64(page).Some? {
      var c := CursorInt64(page).value;
      var bound := LowestLedgerBound(oldest);
      if oldest > 2 {
        AfterLedgerIsLast(oldest - 1);
      }
      SelectCongruent(t, (k: Key) => if page.order == Asc then k.hi > c else (bound > 0 ==> k.hi > bound) && k.hi < c,
                      Past(Key(c, 0), page.order));
    }
  }

  /**
   * An ascending ledgers page is the same before and after adjustment unless the cursor is the elder ledger's own id:
   * then, and only then, that ledger is served again.
   */
  lemma AscendingLedgers(t: seq<Key>, elder: nat, page: PageQuery)
    requires IsLedgerTable(t) && Retained(t, elder) && elder <= MAX_INT32
    requires page.order == Asc && page.limit >= 1 && CursorInt64(page).Some? && '-' !in page.cursor
    ensures Adjust(elder, page).Serve?
    ensures LedgersPage(t, Adjust(elder, page).page, elder) == LedgersPage(t, page, elder) <==>
            !(CursorInt64(page).value == Encode(elder, 0, 0) && Key(Encode(elder, 0, 0), 0) in t)
  {
    var c := CursorInt64(page).value;
    RetainedIsInRetained(t, elder);
    LedgersPageIsPastCursor(t, page, elder);
    if c <= Encode(elder, 0, 0) {
      var adjusted := page.(cursor := StartOfHistory(elder));
      StartOfHistoryParses(elder, Asc, page.limit);
      LedgersPageIsPastCursor(t, adjusted, elder);
      AllPast(t, Key(CursorInt64(adjusted).value, 0));
      FirstRowShows(t, Key(c, 0), page.limit);
      NotPastIsAtElder(t, elder, Key(c, 0));
      LedgerAtElder(t, elder, c);
    }
  }

  /** The exception happens: past the elder's own id the unadjusted page is empty and the adjusted one repeats it. */
  lemma ElderLedgerServedAgain(elder: nat, page: PageQuery)
    requires 1 <= elder <= MAX_INT32 && page.order == Asc && page.limit >= 1
    requires '-' !in page.cursor && CursorInt64(page) == Some(Encode(elder, 0, 0))
    ensures var t := [Key(Encode(elder, 0, 0), 0)];
            && LedgersPage(t, page, elder) == Some([])
            && Adjust(elder, page).Serve? && LedgersPage(t, Adjust(elder, page).page, elder) == Some(t)
  {
    var k := Key(Encode(elder, 0, 0), 0);
    assert IsLedgerTable([k]) && InRetained([k], elder);
    LedgersPageIsPastCursor([k], page, elder);
    OneRowPage(k, k, page.limit);
    var adjusted := page.(cursor := StartOfHistory(elder));
    assert Adjust(elder, page) == Serve(adjusted);
    StartOfHistoryParses(elder, Asc, page.limit);
    LedgersPageIsPastCursor([k], adjusted, elder);
    OneRowPage(k, Key(CursorInt64(adjusted).value, 0), page.limit);
  }

  lemma OneRowPage(k: Key, c: Key, limit: nat)
    requires limit >= 1
    ensures Query([k], Past(c, Asc), Asc, limit) == if Before(c, k) then [k] else []
  {
    var n := Cut([k], c, Asc);
    assert Before(c, [k][0]) <==> n == 0;
    assert [k][0..] == [k] && [k][1..] == [];
  }

  lemma LedgerAtElder(t: seq<Key>, elder: nat, c: int)
    requires IsLedgerTable(t)
    ensures AtElder(t, elder, Key(c, 0)) <==> c == Encode(elder, 0, 0) && Key(Encode(elder, 0, 0), 0) in t
  {
    if c == Encode(elder, 0, 0) {
      if i :| 0 <= i < |t| && t[i].hi == c {
        assert t[i] == Key(c, 0);
      }
    }
  }

  /** A one-number cursor that the page itself accepts is refused as invalid exactly when it is a negative zero. */
  lemma NegativeZeroIsRefused(elder: nat, page: PageQuery)
    requires CursorInt64(page).Some?
    ensures Adjust(elder, page) == Refuse(InvalidCursor) <==> '-' in page.cursor
    ensures page.order == Asc ==> (Adjust(elder, page).Refuse? <==> '-' in page.cursor)
    ensures '-' in page.cursor ==> CursorInt64(page) == Some(0)
  {
    var s := page.cursor;
    if '-' in s {
      assert s[0] == '-' && FirstDash(s) == 0 && s[..0] == "";
    }
  }

  /** There is such a cursor. */
  lemma NegativeZeroIsServed(order: Order, limit: nat)
    ensures CursorInt64(PageQuery("-0", order, limit)) == Some(0) && '-' in "-0"
  {
    assert "-0"[1..] == "0" && "0"[..0] == "";
    assert Value("0") == 0;
    assert "-0"[0] == '-';
  }

  lemma NonePast(t: seq<Key>, c: Key, limit: nat)
    requires Increasing(t) && limit >= 1
    ensures Query(t, Past(c, Desc), Desc, limit) == [] <==> forall i :: 0 <= i < |t| ==> !Before(t[i], c)
  {
    var n := Cut(t, c, Desc);
  }

  /** A descending effects query refused as before history has an empty page, but for rows at the elder's own id. */
  lemma RefusedEffectsAreEmpty(t: seq<Key>, elder: nat, page: PageQuery, expanded: bool)
    requires IsTable(t) && Retained(t, elder) && page.limit >= 1
    requires page.order == Desc && Adjust(elder, page) == Refuse(BeforeHistory)
    ensures EffectsCursor(page).Some?
    ensures var c := EffectsCursor(page).value;
            EffectsPage(t, page, elder, expanded) == Some([]) <==>
            !(c.hi == Encode(elder, 0, 0) && exists i :: 0 <= i < |t| && t[i].hi == c.hi && t[i].lo < c.lo)
  {
    ValidateReadsEffectsCursor(elder, page);
    var c := EffectsCursor(page).value;
    RetainedIsInRetained(t, elder);
    PageIsPastCursor(t, page, elder, expanded);
    NonePast(t, c, page.limit);
    if i :| 0 <= i < |t| && Before(t[i], c) {
      assert t[i].hi >= Encode(elder, 0, 0);
      assert t[i].hi == c.hi && t[i].lo < c.lo;
    }
  }

  /** A descending ledgers query refused as before history has an empty page. */
  lemma RefusedLedgersAreEmpty(t: seq<Key>, elder: nat, page: PageQuery)
    requires IsLedgerTable(t) && Retained(t, elder) && page.limit >= 1
    requires page.order == Desc && Adjust(elder, page) == Refuse(BeforeHistory)
    ensures LedgersPage(t, page, elder).Some? ==> LedgersPage(t, page, elder).value == []
  {
    RetainedIsInRetained(t, elder);
    LedgersPageIsPastCursor(t, page, elder);
    if CursorInt64(page).Some? {
      var c := CursorInt64(page).value;
      NonePast(t, Key(c, 0), page.limit);
      if '-' !in page.cursor {
        assert c <= Encode(elder, 0, 0);
        assert forall i :: 0 <= i < |t| ==> t[i].hi >= Encode(elder, 0, 0) && !Before(t[i], Key(c, 0));
      } else {
        NegativeZeroIsRefused(elder, page);
      }
    }
  }

  /** An effect's operation id is never a ledger's own id, so for effects nothing is lost and nothing served twice. */
  lemma EffectsLoseNothing(t: seq<Key>, elder: nat, page: PageQuery, expanded: bool)
    requires IsTable(t) && Retained(t, elder) && elder <= MAX_INT32 && page.limit >= 1 && EffectsCursor(page).Some?
    requires forall i :: 0 <= i < |t| ==> t[i].hi != Encode(elder, 0, 0)
    ensures match Adjust(elder, page) {
      case Serve(p) => EffectsPage(t, p, elder, expanded) == EffectsPage(t, page, elder, expanded)
      case Refuse(problem) =>
        problem == BeforeHistory && page.order == Desc && EffectsPage(t, page, elder, expanded) == Some([])
    }
  {
    ValidateReadsEffectsCursor(elder, page);
    if page.order == Asc {
      AscendingEffects(t, elder, page, expanded);
    } else if Adjust(elder, page) == Refuse(BeforeHistory) {
      RefusedEffectsAreEmpty(t, elder, page, expanded);
    }
  }
}
