/** The evidence neighbourhood of a query (src/modules/learning/learning_bundle.c): score, sort, take the
    top, count the kinds. */
module Bundle {
  import opened Cosine
  import opened Strings

  const BUNDLE_MAX: nat := 32

  /** A stored row with its parsed vector. */
  datatype Row = Row(artifactId: string, kind: string, collection: string, vector: seq<real>)

  datatype Scored = Scored(row: nat, score: real)

  datatype Item = Item(artifactId: string, kind: string, collection: string, score: real)

  // ------------------------------------------------------------------ scoring

  /** `s` is the score of one of the first `n` rows, of the dimension of the query. */
  predicate ScoreOf(root: real -> real, query: seq<real>, rows: seq<Row>, n: nat, s: Scored) {
    s.row < n && s.row < |rows| && |rows[s.row].vector| == |query| && s.score == Score(root, query, rows[s.row].vector)
  }

  /** Exactly the rows of the right dimension are scored, each once. */
  ghost predicate AllScored(root: real -> real, query: seq<real>, rows: seq<Row>, n: nat, scored: seq<Scored>) {
    && (forall j :: 0 <= j < |scored| ==> ScoreOf(root, query, rows, n, scored[j]))
    && (forall i, j :: 0 <= i < j < |scored| ==> scored[i].row != scored[j].row)
    && (forall i :: 0 <= i < n && i < |rows| && |rows[i].vector| == |query| ==>
          exists j :: 0 <= j < |scored| && scored[j].row == i)
  }

  lemma ScoredOne(root: real -> real, query: seq<real>, rows: seq<Row>, n: nat, scored: seq<Scored>)
    requires n < |rows| && AllScored(root, query, rows, n, scored)
    ensures |rows[n].vector| != |query| ==> AllScored(root, query, rows, n + 1, scored)
    ensures |rows[n].vector| == |query| ==>
              AllScored(root, query, rows, n + 1, scored + [Scored(n, Score(root, query, rows[n].vector))])
  {
    hide Score;
    forall j | 0 <= j < |scored| ensures ScoreOf(root, query, rows, n + 1, scored[j]) && scored[j].row != n {
      assert ScoreOf(root, query, rows, n, scored[j]);
    }
    if |rows[n].vector| == |query| {
      var scored' := scored + [Scored(n, Score(root, query, rows[n].vector))];
      forall i | 0 <= i < n + 1 && |rows[i].vector| == |query|
        ensures exists j :: 0 <= j < |scored'| && scored'[j].row == i
      {
        if i == n {
          assert scored'[|scored|].row == i;
        } else {
          var j :| 0 <= j < |scored| && scored[j].row == i;
          assert scored'[j].row == i;
        }
      }
    }
  }

  // ------------------------------------------------------------------ sorting

  ghost predicate Descending(s: seq<Scored>) {
    forall i, j :: 0 <= i < j < |s| ==> s[i].score >= s[j].score
  }

  /** The same entries in another order. */
  ghost predicate Rearranged(a: seq<Scored>, b: seq<Scored>) {
    multiset(a) == multiset(b)
  }

  /** Descending but for the entry at `j`, which may have to move further to the front. */
  ghost predicate Sinking(s: seq<Scored>, j: nat) {
    && j < |s|
    && (forall p, q :: 0 <= p < q < |s| && q != j ==> s[p].score >= s[q].score)
  }

  function Swapped(s: seq<Scored>, j: nat): (t: seq<Scored>)
    requires 0 < j < |s|
    ensures |t| == |s|
  {
    s[j - 1 := s[j]][j := s[j - 1]]
  }

  lemma SwapOk(s: seq<Scored>, j: nat)
    requires Sinking(s, j) && j > 0
    ensures Rearranged(s, Swapped(s, j))
    ensures s[j].score > s[j - 1].score ==> Sinking(Swapped(s, j), j - 1)
  {}

  /** Stands in for `qsort` with `bundle_cmp_desc`: the first `n` entries sorted by falling score; entries of
      equal score may come in any order there, so nothing is promised about them. */
  method SortDescending(a: array<Scored>, n: nat)
    requires n <= a.Length
    modifies a
    ensures Descending(a[..n]) && Rearranged(old(a[..n]), a[..n]) && a[n..] == old(a[n..])
  {
    ghost var before := a[..n];
    for i := 0 to n
      invariant Descending(a[..i]) && Rearranged(before, a[..n]) && a[n..] == old(a[n..])
    {
      Insert(a, i, n);
    }
  }

  method SwapBack(a: array<Scored>, j: nat)
    requires 0 < j < a.Length
    modifies a
    ensures a[..] == Swapped(old(a[..]), j)
  {
    a[j - 1], a[j] := a[j], a[j - 1];
  }

  /** Moves entry `i` forward to its place. */
  method Insert(a: array<Scored>, i: nat, n: nat)
    requires i < n <= a.Length && Descending(a[..i])
    modifies a
    ensures Descending(a[..i + 1]) && Rearranged(old(a[..n]), a[..n]) && a[n..] == old(a[n..])
  {
    hide Descending, Sinking, Rearranged, Swapped;
    ghost var first, now := a[..], a[..];
    var j := i;
    assert a[..i] == first[..i];
    BeginsSinking(first, i, n);
    while j > 0 && a[j].score > a[j - 1].score
      invariant 0 <= j <= i && a[..] == now && |now| == |first| && now[n..] == first[n..]
      invariant Sinking(now[..i + 1], j) && Rearranged(first[..n], now[..n])
    {
      SinkFurther(first, now, i, n, j);
      SwapBack(a, j);
      now := Swapped(now, j);
      j := j - 1;
    }
    Sunk(now[..i + 1], j);
    assert a[..i + 1] == now[..i + 1] && a[..n] == now[..n] && a[n..] == now[n..];
    assert first[..n] == old(a[..n]) && first[n..] == old(a[n..]);
  }

  lemma BeginsSinking(s: seq<Scored>, i: nat, n: nat)
    requires i < n <= |s| && Descending(s[..i])
    ensures Sinking(s[..i + 1], i) && Rearranged(s[..n], s[..n])
  {
    hide Descending, Sinking;
    StartsSinking(s[..i], s[i]);
    assert s[..i + 1] == s[..i] + [s[i]];
  }

  /** One swap further to the front. */
  lemma SinkFurther(first: seq<Scored>, now: seq<Scored>, i: nat, n: nat, j: nat)
    requires 0 < j <= i < n <= |now| == |first| && now[j].score > now[j - 1].score
    requires Sinking(now[..i + 1], j) && Rearranged(first[..n], now[..n]) && now[n..] == first[n..]
    ensures var next := Swapped(now, j);
      Sinking(next[..i + 1], j - 1) && Rearranged(first[..n], next[..n]) && next[n..] == first[n..]
  {
    hide Sinking, Rearranged, Swapped;
    SwapOk(now[..i + 1], j);
    SwapKeeps(now[..n], j);
    Rearrangement(first[..n], now[..n], Swapped(now[..n], j));
    SwapWithin(now, j, i + 1);
    SwapWithin(now, j, n);
  }

  lemma SwapWithin(s: seq<Scored>, j: nat, k: nat)
    requires 0 < j < k <= |s|
    ensures Swapped(s, j)[..k] == Swapped(s[..k], j) && Swapped(s, j)[k..] == s[k..]
  {}

  lemma StartsSinking(s: seq<Scored>, x: Scored)
    requires Descending(s)
    ensures Sinking(s + [x], |s|)
  {}

  lemma Rearrangement(s: seq<Scored>, t: seq<Scored>, u: seq<Scored>)
    ensures Rearranged(s, s) && (Rearranged(s, t) && Rearranged(t, u) ==> Rearranged(s, u))
  {}

  lemma SwapKeeps(s: seq<Scored>, j: nat)
    requires 0 < j < |s|
    ensures Rearranged(s, Swapped(s, j))
  {}

  lemma Sunk(s: seq<Scored>, j: nat)
    requires Sinking(s, j) && (j == 0 || s[j].score <= s[j - 1].score)
    ensures Descending(s)
  {}

  // ---------------------------------------------------------------- selection

  /** A correct answer: matching rows, each at most once, in falling order, as many as there are up to `k`,
      and no row left out scores higher than one returned. */
  ghost predicate TopK(root: real -> real, query: seq<real>, rows: seq<Row>, k: nat, top: seq<Scored>) {
    && |top| == (if Matching(query, rows) < k then Matching(query, rows) else k)
    && (forall j :: 0 <= j < |top| ==> ScoreOf(root, query, rows, |rows|, top[j]))
    && (forall i, j :: 0 <= i < j < |top| ==> top[i].row != top[j].row)
    && Descending(top)
    && (forall i, j :: 0 <= i < |rows| && |rows[i].vector| == |query| && 0 <= j < |top| && !Returned(top, i) ==>
          Score(root, query, rows[i].vector) <= top[j].score)
  }

  ghost predicate Returned(top: seq<Scored>, row: nat) { exists j :: 0 <= j < |top| && top[j].row == row }

  function MatchingRows(query: seq<real>, rows: seq<Row>): set<nat> {
    set i: nat | i < |rows| && |rows[i].vector| == |query|
  }

  /** How many rows have the dimension of the query. */
  function Matching(query: seq<real>, rows: seq<Row>): nat { |MatchingRows(query, rows)| }

  function RowsOf(s: seq<Scored>): set<nat> { set j | 0 <= j < |s| :: s[j].row }

  lemma {:induction false} RowsCount(s: seq<Scored>)
    requires forall i, j :: 0 <= i < j < |s| ==> s[i].row != s[j].row
    ensures |RowsOf(s)| == |s|
  {
    if s != [] {
      var front, last := s[..|s| - 1], s[|s| - 1];
      RowsCount(front);
      assert RowsOf(s) == RowsOf(front) + {last.row};
      assert last.row !in RowsOf(front);
    }
  }

  lemma ScoredCount(root: real -> real, query: seq<real>, rows: seq<Row>, scored: seq<Scored>)
    requires AllScored(root, query, rows, |rows|, scored)
    ensures |scored| == Matching(query, rows)
  {
    RowsCount(scored);
    forall i | i in MatchingRows(query, rows) ensures i in RowsOf(scored) {
      var j :| 0 <= j < |scored| && scored[j].row == i;
    }
    assert RowsOf(scored) == MatchingRows(query, rows);
  }

  lemma {:induction false} Twice(s: seq<Scored>, i: nat, j: nat)
    requires i < j < |s| && s[i] == s[j]
    ensures multiset(s)[s[i]] >= 2
  {
    assert s == s[..i] + [s[i]] + s[i + 1..j] + [s[j]] + s[j + 1..];
  }

  lemma {:induction false} Once(s: seq<Scored>, x: Scored)
    requires forall i, j :: 0 <= i < j < |s| ==> s[i] != s[j]
    ensures multiset(s)[x] <= 1
  {
    if s != [] {
      var front, last := s[..|s| - 1], s[|s| - 1];
      Once(front, x);
      assert s == front + [last];
      assert x == last ==> x !in front;
    }
  }

  /** Reordering keeps what is scored. */
  lemma RearrangedScored(root: real -> real, query: seq<real>, rows: seq<Row>, s: seq<Scored>, t: seq<Scored>)
    requires AllScored(root, query, rows, |rows|, s) && Rearranged(s, t)
    ensures AllScored(root, query, rows, |rows|, t)
  {
    hide Score;
    forall j | 0 <= j < |t| ensures ScoreOf(root, query, rows, |rows|, t[j]) {
      assert t[j] in multiset(t) && t[j] in multiset(s);
    }
    forall i, j | 0 <= i < j < |t| ensures t[i].row != t[j].row {
      if t[i].row == t[j].row {
        assert t[i] == t[j] by {
          assert ScoreOf(root, query, rows, |rows|, t[i]) && ScoreOf(root, query, rows, |rows|, t[j]);
        }
        Twice(t, i, j);
        Once(s, t[i]);
      }
    }
    forall i | 0 <= i < |rows| && |rows[i].vector| == |query| ensures exists j :: 0 <= j < |t| && t[j].row == i {
      var j :| 0 <= j < |s| && s[j].row == i;
      assert s[j] in multiset(s) && s[j] in multiset(t);
      var k :| 0 <= k < |t| && t[k] == s[j];
      assert t[k].row == i;
    }
  }

  /** The front of the sorted scores is a correct answer. */
  lemma FrontIsTop(root: real -> real, query: seq<real>, rows: seq<Row>, s: seq<Scored>, k: nat, take: nat)
    requires AllScored(root, query, rows, |rows|, s) && Descending(s) && take == (if |s| < k then |s| else k)
    ensures TopK(root, query, rows, k, s[..take])
  {
    hide Score;
    ScoredCount(root, query, rows, s);
    var top := s[..take];
    forall i, j | 0 <= i < |rows| && |rows[i].vector| == |query| && 0 <= j < |top| && !Returned(top, i)
      ensures Score(root, query, rows[i].vector) <= top[j].score
    {
      var p :| 0 <= p < |s| && s[p].row == i;
      assert ScoreOf(root, query, rows, |rows|, s[p]);
      InFront(s, take, p);
    }
  }

  lemma InFront(s: seq<Scored>, take: nat, p: nat)
    requires p < |s| && take <= |s|
    ensures p < take ==> Returned(s[..take], s[p].row)
  {
    if p < take { assert s[..take][p] == s[p]; }
  }

  // ------------------------------------------------------------ the whole call

  function Kinds(items: seq<Item>): set<string> { set i | 0 <= i < |items| :: items[i].kind }

  /** The kinds of the rows shown, as far as they fit. */
  function KindsShown(rows: seq<Row>, top: seq<Scored>): set<string> {
    set i | 0 <= i < |top| && top[i].row < |rows| :: Cut(rows[top[i].row].kind, 63)
  }

  lemma SameKinds(rows: seq<Row>, top: seq<Scored>, items: seq<Item>)
    requires |items| == |top|
    requires forall i :: 0 <= i < |top| ==> top[i].row < |rows| && items[i].kind == Cut(rows[top[i].row].kind, 63)
    ensures Kinds(items) == KindsShown(rows, top)
  {
    hide Cut;
    forall i | 0 <= i < |top| ensures items[i].kind in KindsShown(rows, top) {}
    forall k | k in KindsShown(rows, top) ensures k in Kinds(items) {
      var i :| 0 <= i < |top| && top[i].row < |rows| && k == Cut(rows[top[i].row].kind, 63);
      assert items[i].kind == k;
    }
  }

  class Result {
    const items: array<Item>
    var count: nat
    var distinctKinds: nat
    var scanned: nat

    constructor ()
      ensures fresh(items) && items.Length == BUNDLE_MAX && count == 0 && distinctKinds == 0 && scanned == 0
    {
      items := new Item[BUNDLE_MAX](_ => Item("", "", "", 0.0));
      count, distinctKinds, scanned := 0, 0, 0;
    }

    /** `memset`. */
    method Clear()
      modifies this, items
      ensures count == 0 && distinctKinds == 0 && scanned == 0
      ensures forall i :: 0 <= i < items.Length ==> items[i] == Item("", "", "", 0.0)
    {
      count, distinctKinds, scanned := 0, 0, 0;
      forall i | 0 <= i < items.Length { items[i] := Item("", "", "", 0.0); }
    }

    /** The items show the rows of `top`, in order, field by field, the texts cut to their buffers; the other items
        are empty; and the kinds shown are counted once each. */
    ghost predicate Shows(rows: seq<Row>, top: seq<Scored>)
      reads this, items
    {
      && count == |top| <= items.Length
      && (forall i :: 0 <= i < count ==> top[i].row < |rows|)
      && (forall i :: 0 <= i < count ==>
            var r := rows[top[i].row];
            items[i].artifactId == Cut(r.artifactId, 36) && items[i].kind == Cut(r.kind, 63)
            && items[i].collection == Cut(r.collection, 63) && items[i].score == top[i].score)
      && (forall i :: count <= i < items.Length ==> items[i] == Item("", "", "", 0.0))
      && distinctKinds == |KindsShown(rows, top)|
    }
  }

  datatype Listing = Unavailable | Listed(rows: seq<Row>)

  /** `learning_bundle_build`, given what the embedder (`embedded`, empty when it failed) and the store
      answer. */
  method Build(query: string, k: int, embedded: seq<real>, listing: Listing, root: real -> real, out: Result)
        returns (rc: int)
    requires out.items.Length == 32
    modifies out, out.items
    ensures rc == if query == "" || embedded == [] || listing.Unavailable? then -1 else 0
    ensures rc == 0 ==>
              out.scanned == |listing.rows|
              && var kept := if k < 1 then 1 else if k > 32 then 32 else k;
                 exists top :: TopK(root, embedded, listing.rows, kept, top) && out.Shows(listing.rows, top)
    ensures rc == -1 && query != "" ==> out.count == 0 && out.distinctKinds == 0 && out.scanned == 0
    ensures query == "" ==>
              out.count == old(out.count) && out.distinctKinds == old(out.distinctKinds)
              && out.scanned == old(out.scanned) && out.items[..] == old(out.items[..])
  {
    hide Score, TopK, AllScored;
    if query == "" { return -1; }
    out.Clear();
    var kept: nat := if k < 1 then 1 else if k > BUNDLE_MAX then BUNDLE_MAX else k;
    if |embedded| == 0 { return -1; }
    if listing.Unavailable? { return -1; }
    var rows := listing.rows;
    out.scanned := |rows|;
    if |rows| == 0 {
      NothingScored(root, embedded, kept);
      assert out.Shows(rows, []);
      return 0;
    }
    ghost var top := Select(root, embedded, rows, kept, out);
    rc := 0;
  }

  /** Scoring, sorting and filling in the result. */
  method Select(root: real -> real, query: seq<real>, rows: seq<Row>, k: nat, out: Result)
        returns (ghost top: seq<Scored>)
    requires out.items.Length == BUNDLE_MAX >= k && out.distinctKinds == 0
    requires forall i :: 0 <= i < out.items.Length ==> out.items[i] == Item("", "", "", 0.0)
    modifies out`count, out`distinctKinds, out.items
    ensures TopK(root, query, rows, k, top) && out.Shows(rows, top)
  {
    hide Score, TopK, AllScored, Descending, Rearranged, Cut, Kinds, KindsShown;
    var scored := new Scored[|rows|](_ => Scored(0, 0.0));
    var n := ScoreAll(root, query, rows, scored);
    ghost var all := scored[..n];
    SortDescending(scored, n);
    RearrangedScored(root, query, rows, all, scored[..n]);
    var take := if n < k then n else k;
    FrontIsTop(root, query, rows, scored[..n], k, take);
    top := scored[..take];
    assert scored[..n][..take] == top;
    TopRows(root, query, rows, k, top);
    Fill(rows, scored, take, out);
    CountKinds(take, out);
    SameKinds(rows, top, out.items[..take]);
  }

  lemma NothingScored(root: real -> real, query: seq<real>, k: nat)
    ensures TopK(root, query, [], k, [])
  {
    assert MatchingRows(query, []) == {};
  }

  lemma TopRows(root: real -> real, query: seq<real>, rows: seq<Row>, k: nat, top: seq<Scored>)
    requires TopK(root, query, rows, k, top)
    ensures forall i :: 0 <= i < |top| ==> top[i].row < |rows|
  {
    hide Score;
    forall i | 0 <= i < |top| ensures top[i].row < |rows| {
      assert ScoreOf(root, query, rows, |rows|, top[i]);
    }
  }

  /** Scores the rows of the right dimension, skipping the others. */
  method ScoreAll(root: real -> real, query: seq<real>, rows: seq<Row>, scored: array<Scored>) returns (n: nat)
    requires scored.Length == |rows|
    modifies scored
    ensures n <= |rows| && AllScored(root, query, rows, |rows|, scored[..n])
  {
    hide Score, AllScored;
    n := 0;
    NoneScored(root, query, rows);
    for i := 0 to |rows|
      invariant n <= i && AllScored(root, query, rows, i, scored[..n])
    {
      ScoredOne(root, query, rows, i, scored[..n]);
      if |rows[i].vector| != |query| { continue; }
      var score := BundleCosine(root, query, rows[i].vector, |query|);
      ghost var before := scored[..n];
      scored[n] := Scored(i, score);
      n := n + 1;
      assert scored[..n] == before + [Scored(i, score)];
    }
  }

  lemma NoneScored(root: real -> real, query: seq<real>, rows: seq<Row>)
    ensures AllScored(root, query, rows, 0, [])
  {}

  method Fill(rows: seq<Row>, scored: array<Scored>, take: nat, out: Result)
    requires take <= scored.Length && take <= out.items.Length
    requires forall i :: 0 <= i < take ==> scored[i].row < |rows|
    requires scored as object != out.items as object
    modifies out`count, out.items
    ensures out.count == take
    ensures forall i :: 0 <= i < take ==>
              var r := rows[scored[i].row];
              out.items[i].artifactId == Cut(r.artifactId, 36) && out.items[i].kind == Cut(r.kind, 63)
              && out.items[i].collection == Cut(r.collection, 63) && out.items[i].score == scored[i].score
    ensures forall i :: take <= i < out.items.Length ==> out.items[i] == old(out.items[i])
  {
    hide Cut;
    for i := 0 to take
      invariant forall j :: 0 <= j < i ==>
                  var r := rows[scored[j].row];
                  out.items[j].artifactId == Cut(r.artifactId, 36) && out.items[j].kind == Cut(r.kind, 63)
                  && out.items[j].collection == Cut(r.collection, 63) && out.items[j].score == scored[j].score
      invariant forall j :: i <= j < out.items.Length ==> out.items[j] == old(out.items[j])
    {
      var r := rows[scored[i].row];
      out.items[i] := Item(Cut(r.artifactId, 36), Cut(r.kind, 63), Cut(r.collection, 63), scored[i].score);
    }
    out.count := take;
  }

  /** Counts an item when no earlier one is of its kind. */
  method CountKinds(take: nat, out: Result)
    requires take <= out.items.Length && out.distinctKinds == 0
    modifies out`distinctKinds
    ensures out.distinctKinds == |Kinds(out.items[..take])|
  {
    hide Kinds;
    ghost var items := out.items[..take];
    NoKinds();
    for i := 0 to take
      invariant out.items[..take] == items && out.distinctKinds == |Kinds(items[..i])|
    {
      var seen, j := false, 0;
      while j < i
        invariant 0 <= j <= i && !seen && out.distinctKinds == |Kinds(items[..i])|
        invariant items[i].kind !in Kinds(items[..j])
      {
        if out.items[i].kind == out.items[j].kind {
          seen := true;
          break;
        }
        KindAdded(items[..j], items[j]);
        assert items[..j + 1] == items[..j] + [items[j]];
        j := j + 1;
      }
      KindAdded(items[..i], items[i]);
      assert items[..i + 1] == items[..i] + [items[i]];
      if seen {
        HasKind(items[..i], j);
        assert Kinds(items[..i]) + {items[i].kind} == Kinds(items[..i]);
      } else {
        out.distinctKinds := out.distinctKinds + 1;
      }
    }
    assert items[..take] == items;
  }

  lemma NoKinds()
    ensures Kinds([]) == {}
  {}

  lemma HasKind(items: seq<Item>, j: nat)
    requires j < |items|
    ensures items[j].kind in Kinds(items)
  {}

  lemma KindAdded(items: seq<Item>, item: Item)
    ensures Kinds(items + [item]) == Kinds(items) + {item.kind}
  {
    var longer := items + [item];
    assert longer[|items|] == item;
    forall i | 0 <= i < |items| ensures items[i].kind in Kinds(longer) { assert longer[i] == items[i]; }
  }

  /** Every item shown carries a score in [-1, 1]. */
  lemma ShownInRange(root: real -> real, query: seq<real>, rows: seq<Row>, k: nat, top: seq<Scored>, i: nat)
    requires IsRoot(root) && TopK(root, query, rows, k, top) && i < |top|
    ensures -1.0 <= top[i].score <= 1.0
  {
    assert ScoreOf(root, query, rows, |rows|, top[i]);
    ScoreInRange(root, query, rows[top[i].row].vector);
  }
}
