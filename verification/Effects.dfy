/** Effect cursors, ids and pages. */
module Effects {
  import opened Network
  import opened Decimal
  import opened Paging
  import opened Toid

  /** The position of the first separator, or the length of the string. */
  function FirstDash(s: string): (i: nat)
    ensures i <= |s| && (i < |s| ==> s[i] == '-') && forall j :: 0 <= j < i ==> s[j] != '-'
    decreases |s|
  {
    if s == [] || s[0] == '-' then 0 else 1 + FirstDash(s[1..])
  }

  function CursorInt64(page: PageQuery): Option<int> {
    if page.cursor == "" then Some(if page.order == Asc then 0 else MAX_INT64)
    else match ParseInt(page.cursor)
      case Some(i) => if i < 0 then None else Some(i)
      case None => None
  }

  /** A cursor with one number takes the largest second part. */
  function CursorInt64Pair(page: PageQuery): Option<Key> {
    if page.cursor == "" then Some(if page.order == Asc then Key(0, 0) else Key(MAX_INT64, MAX_INT64))
    else
      var i := FirstDash(page.cursor);
      var l := ParseInt(page.cursor[..i]);
      var r := if i < |page.cursor| then ParseInt(page.cursor[i + 1..]) else Some(MAX_INT64);
      if l.None? || r.None? || l.value < 0 || r.value < 0 then None else Some(Key(l.value, r.value))
  }

  /** parseEffectsCursor. */
  function EffectsCursor(page: PageQuery): Option<Key> {
    match CursorInt64Pair(page)
    case Some(c) => Some(Key(c.hi, if c.lo > MAX_INT32 then MAX_INT32 else c.lo))
    case None => None
  }

  /** The ranges of the columns: a bigint operation id and an integer order. */
  ghost predicate IsEffect(k: Key) {
    0 <= k.hi <= MAX_INT64 && 0 <= k.lo <= MAX_INT32
  }

  ghost predicate IsTable(t: seq<Key>) {
    Increasing(t) && forall i :: 0 <= i < |t| ==> IsEffect(t[i])
  }

  function PagingToken(k: Key): string
    requires k.hi >= 0 && k.lo >= 0
  {
    Digits(k.hi) + "-" + Digits(k.lo)
  }

  function ID(k: Key): string
    requires k.hi >= 0 && k.lo >= 0
  {
    Padded(k.hi, 19) + "-" + Padded(k.lo, 10)
  }

  /** Parsing an effect's paging token gives back its pair. */
  lemma TokenRoundTrip(k: Key, order: Order, limit: nat)
    requires IsEffect(k)
    ensures CursorInt64Pair(PageQuery(PagingToken(k), order, limit)) == Some(k)
    ensures EffectsCursor(PageQuery(PagingToken(k), order, limit)) == Some(k)
  {
    DigitsDenote(k.hi);
    NoDash(Digits(k.hi));
    ParseDigits(k.hi);
    ParseDigits(k.lo);
    SplitAtDash(Digits(k.hi), Digits(k.lo));
  }

  lemma SplitAtDash(l: string, r: string)
    requires FirstDash(l) == |l|
    ensures var s := l + "-" + r; FirstDash(s) == |l| && s[..|l|] == l && s[|l| + 1..] == r
  {
    var s := l + "-" + r;
    assert s[|l|] == '-';
    assert forall j :: 0 <= j < |l| ==> s[j] == l[j];
  }

  lemma Widths()
    ensures MAX_INT64 < Pow10(19) && MAX_INT32 < Pow10(10)
  {
    assert Pow10(4) == 10_000;
    assert Pow10(8) == 100_000_000;
    assert Pow10(10) == 10_000_000_000;
    assert Pow10(14) == 100_000_000_000_000;
    assert Pow10(17) == 100_000_000_000_000_000;
    assert Pow10(19) == 10_000_000_000_000_000_000;
  }

  /** Lexicographic order of ids is numeric order of the pairs. */
  lemma IdOrder(a: Key, b: Key)
    requires IsEffect(a) && IsEffect(b)
    ensures LexLess(ID(a), ID(b)) <==> Before(a, b)
    ensures ID(a) == ID(b) <==> a == b
    ensures |ID(a)| == 30 && ID(a)[19] == '-'
  {
    Widths();
    PaddedOrder(a.hi, b.hi, 19);
    PaddedOrder(a.lo, b.lo, 10);
    JoinedOrder(Padded(a.hi, 19), Padded(a.lo, 10), Padded(b.hi, 19), Padded(b.lo, 10));
    JoinedEqual(Padded(a.hi, 19), Padded(a.lo, 10), Padded(b.hi, 19), Padded(b.lo, 10));
  }

  lemma PaddedOrder(x: nat, y: nat, width: nat)
    requires width >= 1 && x < Pow10(width) && y < Pow10(width)
    ensures |Padded(x, width)| == |Padded(y, width)| == width
    ensures LexLess(Padded(x, width), Padded(y, width)) <==> x < y
    ensures Padded(x, width) == Padded(y, width) <==> x == y
  {
    PaddedDenotes(x, width);
    PaddedDenotes(y, width);
    LexIsNumeric(Padded(x, width), Padded(y, width));
  }

  lemma JoinedOrder(a1: string, a2: string, b1: string, b2: string)
    requires |a1| == |b1|
    ensures LexLess(a1 + "-" + a2, b1 + "-" + b2) <==> LexLess(a1, b1) || (a1 == b1 && LexLess(a2, b2))
  {
    var a, b := "-" + a2, "-" + b2;
    assert a1 + "-" + a2 == a1 + a && b1 + "-" + b2 == b1 + b;
    LexConcat(a1, b1, a, b);
    assert a[1..] == a2 && b[1..] == b2;
  }

  lemma JoinedEqual(a1: string, a2: string, b1: string, b2: string)
    requires |a1| == |b1| && |a2| == |b2|
    ensures a1 + "-" + a2 == b1 + "-" + b2 <==> a1 == b1 && a2 == b2
  {
    var a, b := a1 + "-" + a2, b1 + "-" + b2;
    assert a[..|a1|] == a1 && b[..|b1|] == b1;
    assert a[|a1| + 1..] == a2 && b[|b1| + 1..] == b2;
  }

  /** The descending-only lower bound: operations of ledgers from `oldest` on pass it. */
  function LowestLedgerBound(oldest: nat): int {
    if oldest <= 2 then 0 else AfterLedger(oldest - 1)
  }

  /** The row comparison of Effects. */
  function TupleWhere(c: Key, order: Order, bound: int): Key -> bool {
    (k: Key) => if order == Asc then Before(c, k) else (bound > 0 ==> k.hi > bound) && Before(k, c)
  }

  /** The spelled-out condition of selectEffectsPage. */
  function ExpandedWhere(c: Key, order: Order, bound: int): Key -> bool {
    (k: Key) =>
      if order == Asc then k.hi >= c.hi && (k.hi > c.hi || (k.hi == c.hi && k.lo > c.lo))
      else (bound > 0 ==> k.hi > bound) && k.hi <= c.hi && (k.hi < c.hi || (k.hi == c.hi && k.lo < c.lo))
  }

  /** Effects and selectEffectsPage; None when the cursor is refused. */
  function EffectsPage(t: seq<Key>, page: PageQuery, oldest: nat, expanded: bool): Option<seq<Key>> {
    match EffectsCursor(page)
    case None => None
    case Some(c) => Some(Fetch(t, page.order, page.limit, oldest, expanded)(c))
  }

  ghost predicate InRetained(t: seq<Key>, oldest: nat) {
    forall i :: 0 <= i < |t| ==> t[i].hi >= Encode(oldest, 0, 0)
  }

  /**
   * On rows of ledgers from `oldest` on, both query forms return the rows past the cursor, in order, up to the limit:
   * the lower bound drops nothing.
   */
  lemma PageIsPastCursor(t: seq<Key>, page: PageQuery, oldest: nat, expanded: bool)
    requires InRetained(t, oldest)
    ensures EffectsPage(t, page, oldest, expanded) ==
            match EffectsCursor(page) {
              case None => None
              case Some(c) => Some(Query(t, Past(c, page.order), page.order, page.limit))
            }
  {
    if EffectsCursor(page).Some? {
      WhereIsPastCursor(t, EffectsCursor(page).value, page.order, oldest);
    }
  }

  lemma WhereIsPastCursor(t: seq<Key>, c: Key, order: Order, oldest: nat)
    requires InRetained(t, oldest)
    ensures Select(t, TupleWhere(c, order, LowestLedgerBound(oldest))) == Select(t, Past(c, order))
    ensures Select(t, ExpandedWhere(c, order, LowestLedgerBound(oldest))) == Select(t, Past(c, order))
  {
    if oldest > 2 {
      AfterLedgerIsLast(oldest - 1);
    }
    SelectCongruent(t, TupleWhere(c, order, LowestLedgerBound(oldest)), Past(c, order));
    SelectCongruent(t, ExpandedWhere(c, order, LowestLedgerBound(oldest)), Past(c, order));
  }

  /** A descending page never serves an effect of a ledger older than the retained ones, even if its row is there. */
  lemma DescendingEffectsAreRetained(t: seq<Key>, page: PageQuery, oldest: nat, expanded: bool, k: Key)
    requires page.order == Desc && oldest > 2 && EffectsPage(t, page, oldest, expanded).Some?
    requires k in EffectsPage(t, page, oldest, expanded).value
    ensures k in t && k.hi >= Encode(oldest, 0, 0)
  {
    var c, bound := EffectsCursor(page).value, LowestLedgerBound(oldest);
    AfterLedgerIsLast(oldest - 1);
    PageHolds(t, if expanded then ExpandedWhere(c, Desc, bound) else TupleWhere(c, Desc, bound), Desc, page.limit, k);
  }

  /** What a cursor of two parts stands for: each part must be a number, and neither may be negative. */
  lemma PairMeans(l: string, r: string, order: Order, limit: nat)
    requires FirstDash(l) == |l|
    ensures CursorInt64Pair(PageQuery(l + "-" + r, order, limit)) ==
            match (ParseInt(l), ParseInt(r)) {
              case (Some(x), Some(y)) => if x >= 0 && y >= 0 then Some(Key(x, y)) else None
              case _ => None
            }
  {
    SplitAtDash(l, r);
  }

  /** Cutting the second part down to the column's range changes the page only for a descending cursor's last row. */
  lemma ClampKeepsRows(c: Key, order: Order, k: Key)
    requires IsEffect(k)
    ensures var clamped := Key(c.hi, if c.lo > MAX_INT32 then MAX_INT32 else c.lo);
            Past(clamped, order)(k) == Past(c, order)(k) <==>
            !(order == Desc && c.lo > MAX_INT32 && k == Key(c.hi, MAX_INT32))
  {
  }

  lemma NoDash(s: string)
    requires AllDigits(s)
    ensures FirstDash(s) == |s|
  {
    assert forall i :: 0 <= i < |s| ==> IsDigit(s[i]) && s[i] != '-';
  }

  /** A cursor that is one number skips every effect of that operation (ascending). */
  lemma SingleNumberSkips(n: nat, order: Order, limit: nat)
    requires n <= MAX_INT64
    ensures EffectsCursor(PageQuery(Digits(n), order, limit)) == Some(Key(n, MAX_INT32))
    ensures forall k :: IsEffect(k) ==> (Past(Key(n, MAX_INT32), Asc)(k) <==> k.hi > n)
  {
    var s := Digits(n);
    DigitsDenote(n);
    ParseDigits(n);
    NoDash(s);
    assert s[..|s|] == s;
    assert CursorInt64Pair(PageQuery(s, order, limit)) == Some(Key(n, MAX_INT64));
  }

  /** The page past cursor `c`, in either query form. */
  function Fetch(t: seq<Key>, order: Order, limit: nat, oldest: nat, expanded: bool): Key -> seq<Key> {
    (c: Key) =>
      var bound := LowestLedgerBound(oldest);
      Query(t, if expanded then ExpandedWhere(c, order, bound) else TupleWhere(c, order, bound), order, limit)
  }

  /** The server, as a client of one collection sees it: a page for a cursor. */
  function Server(t: seq<Key>, order: Order, limit: nat, oldest: nat, expanded: bool): string -> Option<seq<Key>> {
    (cursor: string) => EffectsPage(t, PageQuery(cursor, order, limit), oldest, expanded)
  }

  function Token(): Key -> string {
    (k: Key) => if k.hi < 0 || k.lo < 0 then "" else PagingToken(k)
  }

  /** The effects that `n` requests list, following the paging token of each page's last row. */
  function Follow(t: seq<Key>, page: PageQuery, oldest: nat, expanded: bool, n: nat): seq<Key> {
    Client(Server(t, page.order, page.limit, oldest, expanded), Token(), page.cursor, n)
  }

  /** The rows a cursor leaves to be listed. */
  function Left(t: seq<Key>, order: Order, limit: nat): string -> seq<Key> {
    (cursor: string) =>
      match EffectsCursor(PageQuery(cursor, order, limit))
      case None => []
      case Some(c) => Rows(t, c, order)
  }

  lemma LeftAtToken(t: seq<Key>, order: Order, limit: nat, k: Key)
    requires IsEffect(k)
    ensures Left(t, order, limit)(Token()(k)) == Rows(t, k, order)
  {
    TokenRoundTrip(k, order, limit);
  }

  lemma ServerAt(t: seq<Key>, order: Order, limit: nat, oldest: nat, expanded: bool, cursor: string)
    requires InRetained(t, oldest)
    ensures var c := EffectsCursor(PageQuery(cursor, order, limit));
            Server(t, order, limit, oldest, expanded)(cursor)
            == if c.None? then None else Some(Query(t, Past(c.value, order), order, limit))
  {
    PageIsPastCursor(t, PageQuery(cursor, order, limit), oldest, expanded);
  }

  lemma ServerChains(t: seq<Key>, order: Order, limit: nat, oldest: nat, expanded: bool, cursor: string)
    requires IsTable(t) && InRetained(t, oldest) && limit >= 1
    ensures Chains(Server(t, order, limit, oldest, expanded), Token(), Left(t, order, limit), cursor)
  {
    ServerAt(t, order, limit, oldest, expanded, cursor);
    if EffectsCursor(PageQuery(cursor, order, limit)).Some? {
      QueryChains(t, EffectsCursor(PageQuery(cursor, order, limit)).value, order, limit);
    }
  }

  lemma QueryChains(t: seq<Key>, c: Key, order: Order, limit: nat)
    requires IsTable(t) && limit >= 1
    ensures var page := Query(t, Past(c, order), order, limit);
            Rows(t, c, order) == if page == [] then [] else page + Left(t, order, limit)(Token()(page[|page| - 1]))
  {
    var page := Query(t, Past(c, order), order, limit);
    QueryTakes(t, c, order, limit);
    if page != [] {
      PageSplits(t, c, order, limit);
      LeftAtToken(t, order, limit, page[|page| - 1]);
    }
  }

  /** From any cursor, with any positive limit: every effect past it is listed exactly once, in order. */
  lemma FollowListsRest(t: seq<Key>, page: PageQuery, oldest: nat, expanded: bool, n: nat)
    requires IsTable(t) && InRetained(t, oldest) && page.limit >= 1 && EffectsCursor(page).Some? && n > |t|
    ensures Follow(t, page, oldest, expanded, n) == Rows(t, EffectsCursor(page).value, page.order)
  {
    var fetch, rest := Server(t, page.order, page.limit, oldest, expanded), Left(t, page.order, page.limit);
    assert page == PageQuery(page.cursor, page.order, page.limit);
    assert rest(page.cursor) == Rows(t, EffectsCursor(page).value, page.order);
    SelectIsShorter(t, Past(EffectsCursor(page).value, page.order));
    forall s {:trigger Chains(fetch, Token(), rest, s)} ensures Chains(fetch, Token(), rest, s) {
      ServerChains(t, page.order, page.limit, oldest, expanded, s);
    }
    ClientLists(fetch, Token(), rest, page.cursor, n);
  }

  const LOWEST := Key(0, 0)
  const HIGHEST := Key(MAX_INT64, MAX_INT32)

  lemma LowestIsFirst(t: seq<Key>)
    requires IsTable(t) && LOWEST in t
    ensures t[0] == LOWEST
  {
    var i :| 0 <= i < |t| && t[i] == LOWEST;
    assert IsEffect(t[0]);
    assert i > 0 ==> Before(t[0], t[i]);
  }

  lemma LowestCut(t: seq<Key>)
    requires IsTable(t)
    ensures LOWEST in t ==> t == [LOWEST] + Select(t, Past(LOWEST, Asc))
    ensures LOWEST !in t ==> Select(t, Past(LOWEST, Asc)) == t
  {
    var p := Past(LOWEST, Asc);
    forall i | 0 <= i < |t| ensures p(t[i]) <==> t[i] != LOWEST {
      assert IsEffect(t[i]);
    }
    if LOWEST in t {
      LowestIsFirst(t);
      forall i | 0 <= i < |t| ensures p(t[i]) <==> i >= 1 {
        assert i > 0 ==> Before(t[0], t[i]);
      }
      SelectSuffix(t, p, 1);
      assert t == [t[0]] + t[1..];
    } else {
      SelectSuffix(t, p, 0);
    }
  }

  lemma HighestIsLast(t: seq<Key>)
    requires IsTable(t) && HIGHEST in t
    ensures t[|t| - 1] == HIGHEST
  {
    var i :| 0 <= i < |t| && t[i] == HIGHEST;
    assert IsEffect(t[|t| - 1]);
    assert i < |t| - 1 ==> Before(t[i], t[|t| - 1]);
  }

  lemma HighestCut(t: seq<Key>)
    requires IsTable(t)
    ensures HIGHEST in t ==> t == Select(t, Past(HIGHEST, Desc)) + [HIGHEST]
    ensures HIGHEST !in t ==> Select(t, Past(HIGHEST, Desc)) == t
  {
    var p := Past(HIGHEST, Desc);
    forall i | 0 <= i < |t| ensures p(t[i]) <==> t[i] != HIGHEST {
      assert IsEffect(t[i]);
    }
    if HIGHEST in t {
      var n := |t| - 1;
      HighestIsLast(t);
      forall i | 0 <= i < |t| ensures p(t[i]) <==> i < n {
        assert i < n ==> Before(t[i], t[n]);
      }
      SelectPrefix(t, p, n);
      assert t == t[..n] + [t[n]];
    } else {
      SelectPrefix(t, p, |t|);
    }
  }

  /**
   * Following tokens from the empty cursor lists every effect exactly once, in order, whatever the page size: exactly
   * when no effect has the start cursor's own key, and otherwise that one effect is all that is missed.
   */
  lemma FollowAscending(t: seq<Key>, limit: nat, oldest: nat, expanded: bool, n: nat)
    requires IsTable(t) && InRetained(t, oldest) && limit >= 1 && n > |t|
    ensures var all := Follow(t, PageQuery("", Asc, limit), oldest, expanded, n);
            && (all == t <==> LOWEST !in t)
            && (LOWEST in t ==> t == [LOWEST] + all)
  {
    FollowListsRest(t, PageQuery("", Asc, limit), oldest, expanded, n);
    LowestCut(t);
  }

  lemma FollowDescending(t: seq<Key>, limit: nat, oldest: nat, expanded: bool, n: nat)
    requires IsTable(t) && InRetained(t, oldest) && limit >= 1 && n > |t|
    ensures var all := Follow(t, PageQuery("", Desc, limit), oldest, expanded, n);
            && (all == Reverse(t) <==> HIGHEST !in t)
            && (HIGHEST in t ==> Reverse(t) == [HIGHEST] + all)
  {
    FollowListsRest(t, PageQuery("", Desc, limit), oldest, expanded, n);
    HighestCut(t);
    var rest := Select(t, Past(HIGHEST, Desc));
    assert Follow(t, PageQuery("", Desc, limit), oldest, expanded, n) == Reverse(rest);
    if HIGHEST in t {
      ReverseAppend(rest, HIGHEST);
    }
  }

  lemma ReverseAppend(t: seq<Key>, k: Key)
    ensures Reverse(t + [k]) == [k] + Reverse(t) && Reverse(t + [k]) != Reverse(t)
  {
    assert |Reverse(t + [k])| != |Reverse(t)|;
  }

  /** The two directions list the same effects in opposite orders. */
  lemma DirectionsReverse(t: seq<Key>, limit: nat, limit': nat, oldest: nat, expanded: bool, expanded': bool, n: nat)
    requires IsTable(t) && InRetained(t, oldest) && limit >= 1 && limit' >= 1 && n > |t|
    requires LOWEST !in t && HIGHEST !in t
    ensures Follow(t, PageQuery("", Desc, limit), oldest, expanded, n)
            == Reverse(Follow(t, PageQuery("", Asc, limit'), oldest, expanded', n))
  {
    FollowAscending(t, limit', oldest, expanded', n);
    FollowDescending(t, limit, oldest, expanded, n);
  }
}
