/**
  The source-tag scan behind `LaunchGDB.resolveLineTagLocations`: lines are
  read in order and numbered from 1; on each line the still-pending tags are
  tried in the iteration order of the pending set, and the first one the line
  contains is recorded and leaves the pending set (the source then `break`s,
  so at most one tag is recorded per line).

  The pending tags live in a `java.util.HashSet`. Its iteration order is
  unspecified but fixed for a given set, and removing an element keeps the
  relative order of the others, so the scan is modelled with that order as a
  parameter `order` and every property below holds for every order.
 */
module LineTags {
  import opened Common

  /** Why a tag resolution failed. */
  datatype TagError =
    | SourceUnavailable            // the source file could not be opened (IOException)
    | FoundTwice(tag: string)      // a matched tag was already in the table from an earlier call
    | NotFound(tags: set<string>)  // the tags still pending at end of file

  /** The scan after some lines: the tag table, the tags not yet found, and the tag that was found twice, if any. */
  datatype ScanState = ScanState(table: map<string, int>, pending: set<string>, twice: Option<string>)

  /** What a whole resolution leaves behind: the table (partially filled on an error) and the error. */
  datatype Resolution = Resolution(table: map<string, int>, error: Option<TagError>)

  /** `order` enumerates the set `tags`, each tag exactly once. */
  ghost predicate IsIterationOrder(order: seq<string>, tags: set<string>) {
    && (forall i, j :: 0 <= i < j < |order| ==> order[i] != order[j])
    && (forall t :: t in tags <==> t in order)
  }

  /** The first tag, in iteration order, that is still pending and that `line` contains. */
  function FirstPendingMatch(line: string, order: seq<string>, pending: set<string>): (r: Option<string>)
    ensures r.Some? ==> r.value in pending && r.value in order && Contains(line, r.value)
    ensures r.None? ==> forall t :: t in order && t in pending ==> !Contains(line, t)
  {
    if order == [] then None
    else if order[0] in pending && Contains(line, order[0]) then Some(order[0])
    else FirstPendingMatch(line, order[1..], pending)
  }

  /**
    One pass of the inner loop over the pending tags, for line number `lineNumber`. Earlier
    entries are kept; at most one tag leaves the pending set, and it is recorded at this line,
    which contains it; a tag found twice is a pending tag of this line that was already recorded.
   */
  function ScanLine(st: ScanState, line: string, lineNumber: nat, order: seq<string>): (r: ScanState)
    ensures r.pending <= st.pending
    ensures forall k :: k in st.table ==> k in r.table && r.table[k] == st.table[k]
    ensures forall t :: t in st.pending && t !in r.pending ==>
      && t !in st.table && r.table.Keys == st.table.Keys + {t} && r.table[t] == lineNumber && Contains(line, t)
    ensures r.twice != st.twice ==>
      && st.twice.None? && r.pending == st.pending && r.table == st.table
      && r.twice.value in st.pending && r.twice.value in st.table && Contains(line, r.twice.value)
  {
    if st.twice.Some? then st
    else match FirstPendingMatch(line, order, st.pending)
      case None => st
      case Some(t) =>
        if t in st.table then st.(twice := Some(t))
        else ScanState(st.table[t := lineNumber], st.pending - {t}, None)
  }

  /** The scan after the first `n` lines: pending tags only leave, and every tag that left was recorded. */
  function Scan(lines: seq<string>, n: nat, order: seq<string>, start: ScanState): (r: ScanState)
    requires n <= |lines|
    ensures r.pending <= start.pending
    ensures forall k :: k in start.table ==> k in r.table && r.table[k] == start.table[k]
    ensures forall t :: t in start.pending && t !in r.pending ==> t in r.table
  {
    if n == 0 then start
    else ScanLine(Scan(lines, n - 1, order, start), lines[n - 1], n, order)
  }

  /**
    `resolveLineTagLocations` on a readable file: scan every line, then report the leftovers.
    Whatever the outcome, the entries present before the call keep their line numbers; on success
    every requested tag is in the table; "not found" names some requested tags, never none.
   */
  function Resolve(lines: seq<string>, tags: set<string>, order: seq<string>, table: map<string, int>): (r: Resolution)
    ensures forall k :: k in table ==> k in r.table && r.table[k] == table[k]
    ensures r.error.None? ==> forall t :: t in tags ==> t in r.table
    ensures r.error.Some? ==> r.error.value.FoundTwice? || (r.error.value.NotFound? && r.error.value.tags != {} && r.error.value.tags <= tags)
  {
    var st := Scan(lines, |lines|, order, ScanState(table, tags, None));
    if st.twice.Some? then Resolution(st.table, Some(FoundTwice(st.twice.value)))
    else if st.pending != {} then Resolution(st.table, Some(NotFound(st.pending)))
    else Resolution(st.table, None)
  }

  /** Scanning line `n + 1` after a scan that found nothing twice, spelled out by the tag it matches. */
  lemma ScanStep(lines: seq<string>, n: nat, order: seq<string>, start: ScanState, table: map<string, int>, pending: set<string>)
    requires n < |lines|
    requires Scan(lines, n, order, start) == ScanState(table, pending, None)
    ensures var m := FirstPendingMatch(lines[n], order, pending);
      Scan(lines, n + 1, order, start) ==
        if m.None? then ScanState(table, pending, None)
        else if m.value in table then ScanState(table, pending, Some(m.value))
        else ScanState(table[m.value := n + 1], pending - {m.value}, None)
  {
  }

  /** The resolution read off the scan of the whole file. */
  lemma ResolveOfScan(lines: seq<string>, tags: set<string>, order: seq<string>, table0: map<string, int>, st: ScanState)
    requires Scan(lines, |lines|, order, ScanState(table0, tags, None)) == st
    ensures Resolve(lines, tags, order, table0) ==
      if st.twice.Some? then Resolution(st.table, Some(FoundTwice(st.twice.value)))
      else if st.pending != {} then Resolution(st.table, Some(NotFound(st.pending)))
      else Resolution(st.table, None)
  {
  }

  /** Line `j` (1-based) of `lines` exists and contains `tag`. */
  predicate LineHas(lines: seq<string>, j: int, tag: string) {
    1 <= j <= |lines| && Contains(lines[j - 1], tag)
  }

  /** Line `j` is the first line of `lines` that contains `tag`. */
  ghost predicate IsFirstLineOf(lines: seq<string>, tag: string, j: int) {
    LineHas(lines, j, tag) && forall i :: 1 <= i < j ==> !LineHas(lines, i, tag)
  }

  /** Line `j` recorded one of the requested tags. */
  ghost predicate Recorded(st: ScanState, tags: set<string>, j: int) {
    exists u :: u in tags && u !in st.pending && u in st.table && st.table[u] == j
  }

  /** `t` was still pending when line `j` was scanned. */
  ghost predicate PendingAt(st: ScanState, t: string, j: int) {
    t in st.pending || (t in st.table && st.table[t] > j)
  }

  /**
    The table part of the scan invariant, for a scan that started from `table0` with all of
    `tags` pending: earlier entries are kept, the only new keys are tags resolved by this scan
    (none of them known before), and a tag found twice was requested and known before.
   */
  ghost predicate InvTable(tags: set<string>, table0: map<string, int>, st: ScanState) {
    && st.pending <= tags
    && (st.twice.Some? ==> st.twice.value in tags && st.twice.value in st.pending && st.twice.value in table0)
    && (forall k :: k in table0 ==> k in st.table && st.table[k] == table0[k])
    && (forall k :: k in st.table <==> k in table0 || (k in tags && k !in st.pending))
    && (forall t :: t in tags && t !in st.pending ==> t !in table0)
  }

  /** Each tag resolved within the first `n` lines sits on a line that contains it. */
  ghost predicate InvLines(lines: seq<string>, n: nat, tags: set<string>, st: ScanState) {
    forall t :: t in tags && t !in st.pending ==> t in st.table && 1 <= st.table[t] <= n && LineHas(lines, st.table[t], t)
  }

  /** Distinct resolved tags have distinct lines. */
  ghost predicate InvOnePerLine(tags: set<string>, st: ScanState) {
    forall t1, t2 ::
      (t1 in tags && t1 !in st.pending && t2 in tags && t2 !in st.pending && t1 != t2 && t1 in st.table && t2 in st.table)
      ==> st.table[t1] != st.table[t2]
  }

  /** A scanned line that contained a tag while it was pending recorded some tag. */
  ghost predicate InvCovered(lines: seq<string>, n: nat, tags: set<string>, st: ScanState) {
    st.twice.None? ==>
      forall j, t :: j <= n && t in tags && LineHas(lines, j, t) && PendingAt(st, t, j) ==> Recorded(st, tags, j)
  }

  ghost predicate ScanInv(lines: seq<string>, n: nat, tags: set<string>, table0: map<string, int>, st: ScanState) {
    InvTable(tags, table0, st) && InvLines(lines, n, tags, st) && InvOnePerLine(tags, st) && InvCovered(lines, n, tags, st)
  }

  lemma TableStep(line: string, n: nat, tags: set<string>, order: seq<string>, table0: map<string, int>, prev: ScanState)
    requires InvTable(tags, table0, prev)
    ensures InvTable(tags, table0, ScanLine(prev, line, n, order))
  {
  }

  lemma LinesStep(lines: seq<string>, n: nat, tags: set<string>, order: seq<string>, table0: map<string, int>, prev: ScanState)
    requires 1 <= n <= |lines|
    requires InvTable(tags, table0, prev) && InvLines(lines, n - 1, tags, prev)
    ensures InvLines(lines, n, tags, ScanLine(prev, lines[n - 1], n, order))
  {
  }

  lemma OnePerLineStep(lines: seq<string>, n: nat, tags: set<string>, order: seq<string>, table0: map<string, int>, prev: ScanState)
    requires 1 <= n <= |lines|
    requires InvTable(tags, table0, prev) && InvLines(lines, n - 1, tags, prev) && InvOnePerLine(tags, prev)
    ensures InvOnePerLine(tags, ScanLine(prev, lines[n - 1], n, order))
  {
  }

  lemma CoveredStep(lines: seq<string>, n: nat, tags: set<string>, order: seq<string>, table0: map<string, int>, prev: ScanState)
    requires 1 <= n <= |lines|
    requires IsIterationOrder(order, tags)
    requires InvTable(tags, table0, prev) && InvLines(lines, n - 1, tags, prev) && InvCovered(lines, n - 1, tags, prev)
    ensures InvCovered(lines, n, tags, ScanLine(prev, lines[n - 1], n, order))
  {
    var st := ScanLine(prev, lines[n - 1], n, order);
    if prev.twice.None? {
      var m := FirstPendingMatch(lines[n - 1], order, prev.pending);
      if m.None? {
        assert st == prev;
        forall j, t | j <= n && t in tags && LineHas(lines, j, t) && PendingAt(st, t, j)
          ensures Recorded(st, tags, j)
        {
          assert t in order;
        }
      } else if m.value !in prev.table {
        var t := m.value;
        assert st.table == prev.table[t := n] && st.pending == prev.pending - {t} && st.twice.None?;
        forall j, u | j <= n && u in tags && LineHas(lines, j, u) && PendingAt(st, u, j)
          ensures Recorded(st, tags, j)
        {
          if j == n {
            assert t in tags && t !in st.pending && t in st.table && st.table[t] == n;
          } else {
            assert PendingAt(prev, u, j);
            assert Recorded(prev, tags, j);
            var w :| w in tags && w !in prev.pending && w in prev.table && prev.table[w] == j;
            assert w != t && w in st.table && st.table[w] == j;
          }
        }
      }
    }
  }

  lemma {:induction false} ScanKeepsInv(lines: seq<string>, n: nat, tags: set<string>, order: seq<string>, table0: map<string, int>)
    requires n <= |lines|
    requires IsIterationOrder(order, tags)
    ensures ScanInv(lines, n, tags, table0, Scan(lines, n, order, ScanState(table0, tags, None)))
  {
    if n > 0 {
      var prev := Scan(lines, n - 1, order, ScanState(table0, tags, None));
      ScanKeepsInv(lines, n - 1, tags, order, table0);
      TableStep(lines[n - 1], n, tags, order, table0, prev);
      LinesStep(lines, n, tags, order, table0, prev);
      OnePerLineStep(lines, n, tags, order, table0, prev);
      CoveredStep(lines, n, tags, order, table0, prev);
    }
  }

  /** Once a tag has been found twice the scan stops changing: later lines are not examined. */
  lemma {:induction false} ScanStaysAfterTwice(lines: seq<string>, n: nat, m: nat, order: seq<string>, start: ScanState)
    requires n <= m <= |lines|
    requires Scan(lines, n, order, start).twice.Some?
    ensures Scan(lines, m, order, start) == Scan(lines, n, order, start)
    decreases m
  {
    if m > n {
      ScanStaysAfterTwice(lines, n, m - 1, order, start);
    }
  }

  /**
    On success every requested tag is in the table, mapped to a line that contains it;
    distinct requested tags got distinct lines; and a line before a tag's line that also
    contains it recorded a different tag (the `break` after the first match).
   */
  lemma ResolveSuccess(lines: seq<string>, tags: set<string>, order: seq<string>, table0: map<string, int>)
    requires IsIterationOrder(order, tags)
    requires Resolve(lines, tags, order, table0).error.None?
    ensures var r := Resolve(lines, tags, order, table0).table;
      && r.Keys == table0.Keys + tags
      && tags !! table0.Keys
      && (forall t :: t in tags ==> LineHas(lines, r[t], t))
      && (forall t1, t2 :: t1 in tags && t2 in tags && t1 != t2 ==> r[t1] != r[t2])
      && (forall t, j :: t in tags && j < r[t] && LineHas(lines, j, t) ==> exists u :: u in tags && u != t && r[u] == j)
  {
    var st := Scan(lines, |lines|, order, ScanState(table0, tags, None));
    ScanKeepsInv(lines, |lines|, tags, order, table0);
    assert st.pending == {} && st.twice.None?;
    forall t, j | t in tags && j < st.table[t] && LineHas(lines, j, t)
      ensures exists u :: u in tags && u != t && st.table[u] == j
    {
      assert PendingAt(st, t, j);
      assert Recorded(st, tags, j);
      var u :| u in tags && u !in st.pending && u in st.table && st.table[u] == j;
      assert u != t;
    }
  }

  /** "found twice" is raised only for a requested tag that an earlier, uncleared call had already resolved. */
  lemma ResolveFoundTwice(lines: seq<string>, tags: set<string>, order: seq<string>, table0: map<string, int>, tag: string)
    requires IsIterationOrder(order, tags)
    requires Resolve(lines, tags, order, table0).error == Some(FoundTwice(tag))
    ensures tag in tags && tag in table0
  {
    ScanKeepsInv(lines, |lines|, tags, order, table0);
  }

  /**
    "not found" names exactly the requested tags that this call did not resolve, and every
    line that contains one of them recorded another tag.
   */
  lemma ResolveNotFound(lines: seq<string>, tags: set<string>, order: seq<string>, table0: map<string, int>, m: set<string>)
    requires IsIterationOrder(order, tags)
    requires Resolve(lines, tags, order, table0).error == Some(NotFound(m))
    ensures var r := Resolve(lines, tags, order, table0).table;
      && m != {}
      && (forall t :: t in m <==> t in tags && !(t in r && t !in table0))
      && (forall t, j :: t in m && LineHas(lines, j, t) ==> exists u :: u in tags && u !in m && u in r && r[u] == j)
  {
    var st := Scan(lines, |lines|, order, ScanState(table0, tags, None));
    ScanKeepsInv(lines, |lines|, tags, order, table0);
    assert st.twice.None?;
    forall t, j | t in st.pending && LineHas(lines, j, t)
      ensures exists u :: u in tags && u !in st.pending && u in st.table && st.table[u] == j
    {
      assert PendingAt(st, t, j);
      assert Recorded(st, tags, j);
    }
  }

  /**
    When no requested tag is in the table yet, every tag occurs in the file and no line holds
    two different requested tags, the resolution succeeds and maps each tag to the first line
    that contains it.
   */
  lemma ResolveFirstOccurrence(lines: seq<string>, tags: set<string>, order: seq<string>, table0: map<string, int>)
    requires IsIterationOrder(order, tags)
    requires tags !! table0.Keys
    requires forall t :: t in tags ==> exists j :: LineHas(lines, j, t)
    requires forall j, t1, t2 :: t1 in tags && t2 in tags && LineHas(lines, j, t1) && LineHas(lines, j, t2) ==> t1 == t2
    ensures Resolve(lines, tags, order, table0).error.None?
    ensures forall t :: t in tags ==> t in Resolve(lines, tags, order, table0).table
    ensures forall t :: t in tags ==> IsFirstLineOf(lines, t, Resolve(lines, tags, order, table0).table[t])
  {
    var st := Scan(lines, |lines|, order, ScanState(table0, tags, None));
    ScanKeepsInv(lines, |lines|, tags, order, table0);
    assert st.twice.None?;
    // a line holding a tag never saw it pending: the tag that line recorded can only be this one
    forall t, j | t in tags && LineHas(lines, j, t)
      ensures !PendingAt(st, t, j)
    {
      assert PendingAt(st, t, j) ==> Recorded(st, tags, j);
    }
    forall t | t in tags
      ensures t !in st.pending
    {
      var j :| LineHas(lines, j, t);
      assert !PendingAt(st, t, j);
    }
    forall t | t in tags
      ensures IsFirstLineOf(lines, t, st.table[t])
    {
      forall i | 1 <= i < st.table[t]
        ensures !LineHas(lines, i, t)
      {
        assert LineHas(lines, i, t) ==> !PendingAt(st, t, i);
      }
    }
  }
}
