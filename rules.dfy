/**
  The rule logic of the browser client (script.js) that does not touch the
  page: the eight winning lines, the relative time shown for a room, and the
  order of the lobby list.
*/
module GameRules {
  import opened Board
  import opened Protocol

  // ---------------------------------------------------------------------------
  // Winning lines (script.js:457-461 and 487-491)

  /** Three rows, three columns, two diagonals, in the source's order. */
  const WinningLines: seq<(nat, nat, nat)> :=
    [(0, 1, 2), (3, 4, 5), (6, 7, 8),
     (0, 3, 6), (1, 4, 7), (2, 5, 8),
     (0, 4, 8), (2, 4, 6)]

  /** There are eight lines, each of three distinct cells of the board. */
  lemma WinningLinesOnBoard()
    ensures |WinningLines| == 8
    ensures forall i :: 0 <= i < |WinningLines| ==>
      var (p, q, r) := WinningLines[i];
      p < Cells && q < Cells && r < Cells && p != q && q != r && p != r
  {
  }

  /** Line `i` holds three equal non-empty marks. */
  predicate Won(b: seq<Cell>, i: nat)
    requires |b| == Cells && i < |WinningLines|
  {
    var (p, q, r) := WinningLines[i];
    b[p] != Empty && b[p] == b[q] && b[p] == b[r]
  }

  /** Some line is won. */
  predicate HasWin(b: seq<Cell>)
    requires |b| == Cells
  {
    exists i :: 0 <= i < |WinningLines| && Won(b, i)
  }

  /** No cell is empty. */
  predicate Full(b: seq<Cell>)
  {
    Empty !in b
  }

  /** The symbol on the first cell of line `i`. */
  function LineOwner(b: seq<Cell>, i: nat): Cell
    requires |b| == Cells && i < |WinningLines|
  {
    b[WinningLines[i].0]
  }

  // ---------------------------------------------------------------------------
  // Relative time (script.js:299-312)

  /** The bucket getTimeAgo picks, with its count. */
  datatype Ago = FewSeconds | Minutes(n: nat) | Hours(n: nat) | Days(n: nat)

  /**
    getTimeAgo(timestamp) evaluated at time `now` (milliseconds). Dafny's
    division by a positive constant rounds down, as Math.floor does.
  */
  function TimeAgo(now: int, timestamp: int): (a: Ago)
    ensures var s := (now - timestamp) / 1000;
      && (a == FewSeconds <==> s < 60)
      && (a.Minutes? <==> 60 <= s < 3600)
      && (a.Hours? <==> 3600 <= s < 86400)
      && (a.Days? <==> 86400 <= s)
      && (a.Minutes? ==> a.n == s / 60 && 1 <= a.n < 60)
      && (a.Hours? ==> a.n == s / 3600 && 1 <= a.n < 24)
      && (a.Days? ==> a.n == s / 86400 && 1 <= a.n)
  {
    var seconds := (now - timestamp) / 1000;
    if seconds < 60 then FewSeconds
    else
      var minutes := seconds / 60;
      if minutes < 60 then Minutes(minutes)
      else
        var hours := minutes / 60;
        assert hours == seconds / 3600;
        if hours < 24 then Hours(hours)
        else
          assert hours / 24 == seconds / 86400;
          Days(hours / 24)
  }

  /** The buckets in increasing order of age. */
  function Rank(a: Ago): nat
  {
    match a
    case FewSeconds => 0
    case Minutes(_) => 1
    case Hours(_) => 2
    case Days(_) => 3
  }

  /** An older timestamp never gets a younger bucket, nor a smaller count within the same bucket. */
  lemma TimeAgoMonotone(now: int, newer: int, older: int)
    requires older <= newer
    ensures Rank(TimeAgo(now, newer)) <= Rank(TimeAgo(now, older))
    ensures Rank(TimeAgo(now, newer)) == Rank(TimeAgo(now, older)) && !TimeAgo(now, newer).FewSeconds? ==>
      TimeAgo(now, newer).n <= TimeAgo(now, older).n
  {
    var s1, s2 := (now - newer) / 1000, (now - older) / 1000;
    assert s1 <= s2;
  }

  /** The decimal digits of n, as a template literal writes a number. */
  function Decimal(n: nat): (r: string)
    ensures |r| >= 1
    ensures forall i :: 0 <= i < |r| ==> '0' <= r[i] <= '9'
    ensures r[0] == '0' <==> n == 0
    ensures |r| == 1 || r[0] != '0'
  {
    var d := ['0', '1', '2', '3', '4', '5', '6', '7', '8', '9'];
    if n < 10 then [d[n]] else Decimal(n / 10) + [d[n % 10]]
  }

  /** The number a string of decimal digits denotes. */
  function DigitsValue(s: string): nat
    requires forall i :: 0 <= i < |s| ==> '0' <= s[i] <= '9'
  {
    if s == [] then 0 else DigitsValue(s[..|s| - 1]) * 10 + (s[|s| - 1] as int - '0' as int)
  }

  /** Reading back the digits of n gives n. */
  lemma {:induction false} DecimalRoundTrip(n: nat)
    ensures DigitsValue(Decimal(n)) == n
  {
    var d := ['0', '1', '2', '3', '4', '5', '6', '7', '8', '9'];
    assert forall k :: 0 <= k < 10 ==> d[k] as int - '0' as int == k;
    if n >= 10 {
      var r := Decimal(n);
      assert r[..|r| - 1] == Decimal(n / 10);
      DecimalRoundTrip(n / 10);
    }
  }

  /** The count followed by the singular noun when it is 1 and the plural otherwise. */
  function Counted(n: nat, singular: string, plural: string): string
  {
    Decimal(n) + " " + (if n == 1 then singular else plural)
  }

  /** A counted text after "hace " starts with a digit and ends with the unit word. */
  lemma AgoCounted(n: nat, singular: string, plural: string)
    ensures var r := "hace " + Counted(n, singular, plural);
      && r != "hace unos segundos"
      && r[5 + |Decimal(n)| + 1..] == (if n == 1 then singular else plural)
  {
    var r := "hace " + Counted(n, singular, plural);
    assert r[5] == Decimal(n)[0];
    assert r[5 + |Decimal(n)| + 1..] == (if n == 1 then singular else plural);
  }

  /** The text getTimeAgo returns for a bucket. */
  function AgoText(a: Ago): (r: string)
    ensures |r| > 5 && r[..5] == "hace "
    ensures a.FewSeconds? <==> r == "hace unos segundos"
    ensures !a.FewSeconds? ==> Decimal(a.n) + " " <= r[5..]
    ensures a.Minutes? ==> r[5 + |Decimal(a.n)| + 1..] in {"minuto", "minutos"}
    ensures a.Hours? ==> r[5 + |Decimal(a.n)| + 1..] in {"hora", "horas"}
    ensures a.Days? ==> r[5 + |Decimal(a.n)| + 1..] in {"día", "días"}
    ensures !a.FewSeconds? ==> (r[|r| - 1] == 's' <==> a.n != 1)
  {
    match a
    case FewSeconds => "hace unos segundos"
    case Minutes(n) => AgoCounted(n, "minuto", "minutos"); "hace " + Counted(n, "minuto", "minutos")
    case Hours(n) => AgoCounted(n, "hora", "horas"); "hace " + Counted(n, "hora", "horas")
    case Days(n) => AgoCounted(n, "día", "días"); "hace " + Counted(n, "día", "días")
  }

  // ---------------------------------------------------------------------------
  // Lobby order (script.js:274-276)

  /** `ids` lists every room newest first: createdAt never increases along it. */
  predicate NewestFirst(ids: seq<string>, rooms: map<string, RoomSummary>)
    requires forall k :: k in ids ==> k in rooms
  {
    forall i, j :: 0 <= i < j < |ids| ==> rooms[ids[i]].createdAt >= rooms[ids[j]].createdAt
  }

  /** Putting `x` in front keeps the order when nothing after it is newer. */
  lemma NewestFirstCons(x: string, rest: seq<string>, rooms: map<string, RoomSummary>)
    requires x in rooms && forall y :: y in rest ==> y in rooms
    requires NewestFirst(rest, rooms)
    requires forall y :: y in rest ==> rooms[y].createdAt <= rooms[x].createdAt
    ensures NewestFirst([x] + rest, rooms)
  {
    var s := [x] + rest;
    forall i, j | 0 <= i < j < |s| ensures rooms[s[i]].createdAt >= rooms[s[j]].createdAt {
      assert s[j] == rest[j - 1];
      if i > 0 { assert s[i] == rest[i - 1]; } else { assert rest[j - 1] in rest; }
    }
  }

  /** In a newest-first list nothing is newer than the head. */
  lemma NewestHead(sorted: seq<string>, rooms: map<string, RoomSummary>)
    requires sorted != [] && forall x :: x in sorted ==> x in rooms
    requires NewestFirst(sorted, rooms)
    ensures forall y :: y in sorted ==> rooms[y].createdAt <= rooms[sorted[0]].createdAt
  {
    forall y | y in sorted ensures rooms[y].createdAt <= rooms[sorted[0]].createdAt {
      var m :| 0 <= m < |sorted| && sorted[m] == y;
      if m > 0 { assert rooms[sorted[0]].createdAt >= rooms[sorted[m]].createdAt; }
    }
  }

  /** The tail of a newest-first list is newest first. */
  lemma NewestTail(sorted: seq<string>, rooms: map<string, RoomSummary>)
    requires sorted != [] && forall x :: x in sorted ==> x in rooms
    requires NewestFirst(sorted, rooms)
    ensures forall x :: x in sorted[1..] ==> x in rooms
    ensures NewestFirst(sorted[1..], rooms)
  {
    var tail := sorted[1..];
    forall i, j | 0 <= i < j < |tail| ensures rooms[tail[i]].createdAt >= rooms[tail[j]].createdAt {
      assert tail[i] == sorted[i + 1] && tail[j] == sorted[j + 1];
    }
  }

  /**
    When `k` is older than the head of `sorted`, the head followed by `k`
    inserted into the tail is newest first and holds the same ids.
  */
  lemma InsertBehindHead(k: string, sorted: seq<string>, rest: seq<string>, rooms: map<string, RoomSummary>)
    requires sorted != [] && k in rooms && forall x :: x in sorted ==> x in rooms
    requires NewestFirst(sorted, rooms)
    requires rooms[k].createdAt < rooms[sorted[0]].createdAt
    requires multiset(rest) == multiset(sorted[1..]) + multiset{k}
    requires forall x :: x in rest ==> x in rooms
    requires NewestFirst(rest, rooms)
    ensures multiset([sorted[0]] + rest) == multiset(sorted) + multiset{k}
    ensures forall x :: x in [sorted[0]] + rest ==> x in rooms
    ensures NewestFirst([sorted[0]] + rest, rooms)
  {
    NewestHead(sorted, rooms);
    forall y | y in rest ensures rooms[y].createdAt <= rooms[sorted[0]].createdAt {
      if y != k {
        assert y in multiset(rest);
        assert y in multiset(sorted[1..]);
        var m :| 0 <= m < |sorted[1..]| && sorted[1..][m] == y;
        assert sorted[m + 1] == y;
      }
    }
    NewestFirstCons(sorted[0], rest, rooms);
    assert sorted == [sorted[0]] + sorted[1..];
  }

  /** Places `k` before the first entry that is not newer than it. */
  function InsertNewest(k: string, sorted: seq<string>, rooms: map<string, RoomSummary>): (r: seq<string>)
    requires k in rooms && forall x :: x in sorted ==> x in rooms
    requires NewestFirst(sorted, rooms)
    ensures multiset(r) == multiset(sorted) + multiset{k}
    ensures forall x :: x in r ==> x in rooms
    ensures NewestFirst(r, rooms)
  {
    if sorted == [] then [k]
    else if rooms[k].createdAt >= rooms[sorted[0]].createdAt then
      NewestHead(sorted, rooms);
      NewestFirstCons(k, sorted, rooms);
      [k] + sorted
    else
      NewestTail(sorted, rooms);
      var rest := InsertNewest(k, sorted[1..], rooms);
      InsertBehindHead(k, sorted, rest, rooms);
      [sorted[0]] + rest
  }

  /** The lobby's room ids sorted by creation time, newest first (script.js:274-276). */
  function SortNewestFirst(keys: seq<string>, rooms: map<string, RoomSummary>): (r: seq<string>)
    requires forall k :: k in keys ==> k in rooms
    ensures multiset(r) == multiset(keys)
    ensures forall x :: x in r ==> x in rooms
    ensures NewestFirst(r, rooms)
  {
    if keys == [] then []
    else
      assert keys == [keys[0]] + keys[1..];
      InsertNewest(keys[0], SortNewestFirst(keys[1..], rooms), rooms)
  }
}
