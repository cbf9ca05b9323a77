/** The shared drive record (`lib/src/discovery.rs`): many replicas read it from the relay, merge
    themselves in, and write it back with compare-and-swap. */
module Discovery {
  import opened Basics

  const MAX_NODE_IDS: nat := 6
  const ATTEMPTS: nat := 3

  datatype DriveRecord = DriveRecord(nodeIds: seq<string>, origins: seq<string>)

  const NO_RECORD := DriveRecord([], [])

  // ---- Lists --------------------------------------------------------------------------------

  function Without(list: seq<string>, id: string): (r: seq<string>)
    ensures |r| <= |list|
    ensures id !in r
    ensures forall x :: x in r <==> x in list && x != id
  {
    if list == [] then [] else (if list[0] == id then [] else [list[0]]) + Without(list[1..], id)
  }

  function Front(list: seq<string>): seq<string> {
    if |list| <= MAX_NODE_IDS then list else list[..MAX_NODE_IDS]
  }

  /** Moved to the front, with no limit on the list. */
  function Foremost(list: seq<string>, id: string): seq<string> {
    [id] + Without(list, id)
  }

  function Added(list: seq<string>, item: string): seq<string> {
    if item in list then list else list + [item]
  }

  lemma {:induction false} WithoutAbsent(list: seq<string>, id: string)
    requires id !in list
    ensures Without(list, id) == list
  {
    if list != [] { WithoutAbsent(list[1..], id); }
  }

  lemma {:induction false} WithoutConcat(a: seq<string>, b: seq<string>, id: string)
    ensures Without(a + b, id) == Without(a, id) + Without(b, id)
  {
    if a == [] {
      assert a + b == b;
    } else {
      var head := if a[0] == id then [] else [a[0]];
      assert (a + b)[1..] == a[1..] + b && (a + b)[0] == a[0];
      WithoutConcat(a[1..], b, id);
      var front, back := Without(a[1..], id), Without(b, id);
      assert Without(a + b, id) == head + (front + back) && Without(a, id) == head + front;
      assert head + (front + back) == (head + front) + back;
    }
  }

  /** Without repeats, removing an id removes one element. */
  lemma {:induction false} WithoutLength(list: seq<string>, id: string)
    requires NoRepeats(list)
    ensures |Without(list, id)| == if id in list then |list| - 1 else |list|
    ensures NoRepeats(Without(list, id))
  {
    if list != [] {
      var rest := list[1..];
      assert list[0] !in rest;
      WithoutLength(rest, id);
      if list[0] == id {
        WithoutAbsent(rest, id);
        assert Without(list, id) == rest;
      } else {
        assert Without(list, id) == [list[0]] + Without(rest, id);
      }
    }
  }

  lemma {:induction false} WithoutCount(list: seq<string>, id: string)
    ensures |Without(list, id)| == |list| - multiset(list)[id]
  {
    if list != [] {
      assert list == [list[0]] + list[1..];
      WithoutCount(list[1..], id);
    }
  }

  lemma FrontOfConcat(each: seq<string>, beyond: seq<string>)
    ensures Front(each) == Front(each + beyond) <==> beyond == [] || |each| >= MAX_NODE_IDS
  {
    if beyond == [] {
      assert each + beyond == each;
    } else if |each| >= MAX_NODE_IDS {
      assert (each + beyond)[..MAX_NODE_IDS] == each[..MAX_NODE_IDS];
    } else {
      assert |Front(each + beyond)| > |Front(each)|;
    }
  }

  /** Truncating on every update keeps what truncating once would keep, exactly when the id does not stand
      twice among the entries kept so far, or nothing else was beyond them. */
  lemma TruncateEachOrOnceIff(list: seq<string>, id: string)
    ensures Front(Foremost(Front(list), id)) == Front(Foremost(list, id))
            <==> multiset(Front(list))[id] <= 1 || Without(list[|Front(list)|..], id) == []
  {
    var kept := Front(list);
    var rest := list[|kept|..];
    assert list == kept + rest;
    var each, beyond := Foremost(kept, id), Without(rest, id);
    assert Foremost(list, id) == each + beyond by { WithoutConcat(kept, rest, id); }
    assert |each| == 1 + |kept| - multiset(kept)[id] by { WithoutCount(kept, id); }
    assert beyond != [] ==> |kept| == MAX_NODE_IDS;
    hide Front, Foremost, Without;
    FrontOfConcat(each, beyond);
  }

  // ---- The list by most recent publish --------------------------------------------------------

  /** All ids, the latest published first; those never published keep the order they had at the start. */
  function Recent(base: seq<string>, log: seq<string>): seq<string> {
    if log == [] then base else Foremost(Recent(base, log[..|log| - 1]), log[|log| - 1])
  }

  /** The list as the source keeps it: moved to the front and truncated, publish by publish. */
  function Kept(base: seq<string>, log: seq<string>): seq<string> {
    if log == [] then base else Front(Foremost(Kept(base, log[..|log| - 1]), log[|log| - 1]))
  }

  /** Truncated once, after all publishes. */
  function KeptOnce(base: seq<string>, log: seq<string>): seq<string> {
    if log == [] then base else Front(Recent(base, log))
  }

  /** Within the entries kept, a repeated id has nothing but itself behind its second place. Lists without
      repeats are so. */
  predicate Tame(list: seq<string>) {
    forall i, j, k | 0 <= i < j < k < |list| && j < MAX_NODE_IDS && list[i] == list[j] :: list[k] == list[j]
  }

  /** When an id was last published: its last position in the log, counted from one; zero when never. */
  function LastUse(log: seq<string>, id: string): (n: nat)
    ensures n <= |log|
    ensures n == 0 <==> id !in log
    ensures n > 0 ==> log[n - 1] == id && id !in log[n..]
  {
    if log == [] then 0
    else if log[|log| - 1] == id then |log|
    else
      var n := LastUse(log[..|log| - 1], id);
      assert log == log[..|log| - 1] + [log[|log| - 1]];
      assert n > 0 ==> log[n..] == log[..|log| - 1][n..] + [log[|log| - 1]];
      n
  }

  predicate Precedes(list: seq<string>, a: string, b: string) {
    exists i, j :: 0 <= i < j < |list| && list[i] == a && list[j] == b
  }

  lemma {:induction false} RecentNoRepeats(base: seq<string>, log: seq<string>)
    requires NoRepeats(base)
    ensures NoRepeats(Recent(base, log))
    ensures forall id :: id in Recent(base, log) <==> id in base || id in log
  {
    if log != [] {
      var n := |log| - 1;
      RecentNoRepeats(base, log[..n]);
      WithoutLength(Recent(base, log[..n]), log[n]);
      assert log == log[..n] + [log[n]];
    }
  }

  lemma {:induction false} WithoutPrecedes(list: seq<string>, id: string, a: string, b: string)
    requires a != id && b != id
    ensures Precedes(Without(list, id), a, b) <==> Precedes(list, a, b)
  {
    if list != [] {
      WithoutPrecedes(list[1..], id, a, b);
      PrecedesStep(list, a, b);
      if list[0] == id {
        assert Without(list, id) == Without(list[1..], id);
      } else {
        assert Without(list, id) == [list[0]] + Without(list[1..], id);
        PrecedesStep(Without(list, id), a, b);
        assert Without(list, id)[1..] == Without(list[1..], id);
      }
    }
  }

  lemma PrecedesStep(list: seq<string>, a: string, b: string)
    requires list != []
    ensures Precedes(list, a, b) <==> (list[0] == a && b in list[1..]) || Precedes(list[1..], a, b)
  {
    if Precedes(list, a, b) {
      var i, j :| 0 <= i < j < |list| && list[i] == a && list[j] == b;
      if i == 0 { assert list[1..][j - 1] == b; } else { assert list[1..][i - 1] == a && list[1..][j - 1] == b; }
    }
    if list[0] == a && b in list[1..] {
      var j :| 0 <= j < |list[1..]| && list[1..][j] == b;
      assert list[0] == a && list[j + 1] == b;
    }
    if Precedes(list[1..], a, b) {
      var i, j :| 0 <= i < j < |list[1..]| && list[1..][i] == a && list[1..][j] == b;
      assert list[i + 1] == a && list[j + 1] == b;
    }
  }

  /** The order of the list is the order of most recent publishes. */
  lemma {:induction false} RecentOrder(base: seq<string>, log: seq<string>, a: string, b: string)
    requires NoRepeats(base) && a in log && a != b && (b in base || b in log)
    ensures Precedes(Recent(base, log), a, b) <==> LastUse(log, a) > LastUse(log, b)
  {
    var n := |log| - 1;
    var before, last := log[..n], log[n];
    assert log == before + [last];
    RecentNoRepeats(base, before);
    RecentNoRepeats(base, log);
    PrecedesStep(Recent(base, log), a, b);
    assert Recent(base, log)[1..] == Without(Recent(base, before), last);
    if last == a {
      assert LastUse(log, b) == LastUse(before, b);
    } else if last == b {
      assert !Precedes(Recent(base, log)[1..], a, b);
    } else {
      RecentOrder(base, before, a, b);
      WithoutPrecedes(Recent(base, before), last, a, b);
    }
  }

  // ---- When truncating every time is truncating once --------------------------------------------

  lemma {:induction false} TwiceCounts(list: seq<string>, i: nat, j: nat)
    requires i < j < |list| && list[i] == list[j]
    ensures multiset(list)[list[i]] >= 2
  {
    assert list == list[..j] + [list[j]] + list[j + 1..];
    assert list[i] == list[..j][i] && list[i] in list[..j];
    assert list[i] in multiset(list[..j]);
  }

  /** An id counted twice stands at two places. */
  lemma {:induction false} TwicePlaces(list: seq<string>, id: string) returns (i: nat, j: nat)
    requires multiset(list)[id] >= 2
    ensures i < j < |list| && list[i] == list[j] == id
  {
    var n := |list| - 1;
    assert list == list[..n] + [list[n]];
    if list[n] == id {
      assert id in multiset(list[..n]) && id in list[..n];
      i :| 0 <= i < n && list[..n][i] == id;
      j := n;
    } else {
      i, j := TwicePlaces(list[..n], id);
    }
  }

  lemma {:induction false} WithoutAll(list: seq<string>, id: string)
    ensures Without(list, id) == [] <==> forall k | 0 <= k < |list| :: list[k] == id
  {
    if list != [] {
      WithoutAll(list[1..], id);
      assert (forall k | 0 <= k < |list| :: list[k] == id) <==> list[0] == id && forall k | 0 <= k < |list[1..]| :: list[1..][k] == id by {
        assert forall k | 0 < k < |list| :: list[k] == list[1..][k - 1];
      }
    }
  }

  /** On a tame list one truncated update is exact. */
  lemma TameStep(list: seq<string>, id: string)
    requires Tame(list)
    ensures Front(Foremost(Front(list), id)) == Front(Foremost(list, id))
  {
    hide Foremost, Without;
    TruncateEachOrOnceIff(list, id);
    var kept := Front(list);
    var rest := list[|kept|..];
    if multiset(kept)[id] >= 2 {
      var i, j := TwicePlaces(kept, id);
      forall k | 0 <= k < |rest| ensures rest[k] == id {
        assert list[i] == list[j] == id && list[|kept| + k] == rest[k];
      }
      WithoutAll(rest, id);
    }
  }

  lemma WithoutHead(head: string, rest: seq<string>, id: string)
    ensures Without([head] + rest, id) == (if head == id then [] else [head]) + Without(rest, id)
  {
    assert ([head] + rest)[1..] == rest;
  }

  /** Where an element of the list without an id stands in the list: behind as many elements other than it. */
  lemma {:induction false} WithoutAt(list: seq<string>, id: string, j: nat) returns (p: nat)
    requires j < |Without(list, id)|
    ensures j <= p < |list| && list[p] == Without(list, id)[j] && |Without(list[..p], id)| == j
    decreases |list|
  {
    var head, rest := list[0], list[1..];
    assert list == [head] + rest;
    hide Without;
    WithoutHead(head, rest, id);
    if head != id && j == 0 {
      p := 0;
    } else {
      var q := WithoutAt(rest, id, if head == id then j else j - 1);
      p := q + 1;
      assert list[..p] == [head] + rest[..q];
      WithoutHead(head, rest[..q], id);
    }
  }

  lemma WithoutPrefix(list: seq<string>, id: string, p: nat, q: nat)
    requires p <= q <= |list|
    ensures |Without(list[..p], id)| <= |Without(list[..q], id)|
  {
    assert list[..q] == list[..p] + list[p..q];
    WithoutConcat(list[..p], list[p..q], id);
  }

  /** Below the sixth place, few entries other than `id` come first only if `id` itself stands there twice. */
  lemma CrowdedOut(list: seq<string>, id: string, p: nat)
    requires Tame(list) && MAX_NODE_IDS <= p < |list| && |Without(list[..p], id)| < MAX_NODE_IDS - 1
    ensures list[p] == id
  {
    var front := list[..MAX_NODE_IDS];
    WithoutPrefix(list, id, MAX_NODE_IDS, p);
    WithoutCount(front, id);
    var i, j := TwicePlaces(front, id);
    assert list[i] == list[j] == id;
  }

  /** Publishing keeps the untruncated list tame. */
  lemma TameStays(list: seq<string>, id: string)
    requires Tame(list)
    ensures Tame(Foremost(list, id))
  {
    hide Without, Tame;
    var w := Without(list, id);
    var all := Foremost(list, id);
    assert forall m | 0 < m < |all| :: all[m] == w[m - 1] && w[m - 1] in w;
    assert all[0] == id;
    forall i, j, k | 0 <= i < j < k < |all| && j < MAX_NODE_IDS && all[i] == all[j] ensures all[k] == all[j] {
      if i > 0 { TamePlaces(list, id, i - 1, j - 1, k - 1); }
    }
    assert Tame(all) by { TameFrom(all); }
  }

  lemma TameFrom(list: seq<string>)
    requires forall i, j, k | 0 <= i < j < k < |list| && j < MAX_NODE_IDS && list[i] == list[j] :: list[k] == list[j]
    ensures Tame(list)
  {
  }

  lemma TameAt(list: seq<string>, i: nat, j: nat, k: nat)
    requires Tame(list) && i < j < k < |list| && j < MAX_NODE_IDS && list[i] == list[j]
    ensures list[k] == list[j]
  {
  }

  lemma TamePlaces(list: seq<string>, id: string, i: nat, j: nat, k: nat)
    requires Tame(list) && i < j < k < |Without(list, id)| && j < MAX_NODE_IDS - 1
    requires Without(list, id)[i] == Without(list, id)[j]
    ensures Without(list, id)[k] == Without(list, id)[j]
  {
    hide Without, Tame;
    var w := Without(list, id);
    var pi := WithoutAt(list, id, i);
    var pj := WithoutAt(list, id, j);
    var pk := WithoutAt(list, id, k);
    if pj <= pi { WithoutPrefix(list, id, pj, pi); }
    if pk <= pj { WithoutPrefix(list, id, pk, pj); }
    assert w[j] in w;
    if pj >= MAX_NODE_IDS { CrowdedOut(list, id, pj); }
    TameAt(list, pi, pj, pk);
  }

  lemma {:induction false} RecentTame(base: seq<string>, log: seq<string>)
    requires Tame(base)
    ensures Tame(Recent(base, log))
    decreases |log|
  {
    hide Tame, Foremost;
    if log != [] {
      RecentTame(base, log[..|log| - 1]);
      TameStays(Recent(base, log[..|log| - 1]), log[|log| - 1]);
    }
  }

  lemma {:induction false} TameKeepsExactly(base: seq<string>, log: seq<string>)
    requires Tame(base)
    ensures Kept(base, log) == KeptOnce(base, log)
    decreases |log|
  {
    hide Tame, Foremost, Front;
    if log != [] {
      var before, id := log[..|log| - 1], log[|log| - 1];
      TameKeepsExactly(base, before);
      RecentTame(base, before);
      if before != [] { TameStep(Recent(base, before), id); }
    }
  }

  // ---- And when it is not -------------------------------------------------------------------------

  lemma {:induction false} WithoutOthers(list: seq<string>, id: string, other: string)
    requires other != id
    ensures multiset(Without(list, id))[other] == multiset(list)[other]
  {
    if list != [] {
      assert list == [list[0]] + list[1..];
      WithoutOthers(list[1..], id, other);
    }
  }

  /** One more publish tells the two apart when the id stands twice among the kept and another one beyond. */
  lemma ApartAfter(base: seq<string>, log: seq<string>, id: string, other: string)
    requires log != [] && Kept(base, log) == KeptOnce(base, log) && other != id
    requires var all := Recent(base, log);
             |all| > MAX_NODE_IDS && multiset(all[..MAX_NODE_IDS])[id] >= 2 && other in all[MAX_NODE_IDS..]
    ensures Kept(base, log + [id]) != KeptOnce(base, log + [id])
  {
    hide Without, Foremost;
    var all := Recent(base, log);
    assert (log + [id])[..|log|] == log;
    TruncateEachOrOnceIff(all, id);
    assert other in Without(all[MAX_NODE_IDS..], id);
  }

  function MaxLength(list: seq<string>): (n: nat)
    ensures forall s :: s in list ==> |s| <= n
  {
    if list == [] then 0 else var n := MaxLength(list[1..]); if |list[0]| > n then |list[0]| else n
  }

  /** An id longer than any in the list. */
  function NewId(base: seq<string>, n: nat): (r: string)
    ensures |r| == MaxLength(base) + n
  {
    seq(MaxLength(base) + n, i => 'n')
  }

  /** Publishes of ids that are not in the list. */
  function NewIds(base: seq<string>, n: nat): (r: seq<string>)
    ensures |r| == n
  {
    if n == 0 then [] else NewIds(base, n - 1) + [NewId(base, n)]
  }

  /** Those ids, the last one first. */
  function Shifted(base: seq<string>, n: nat): (r: seq<string>)
    ensures |r| == n
    ensures forall s :: s in r ==> |s| <= MaxLength(base) + n
  {
    if n == 0 then [] else [NewId(base, n)] + Shifted(base, n - 1)
  }

  lemma NewIdAbsent(base: seq<string>, n: nat)
    requires n > 0
    ensures NewId(base, n) !in Shifted(base, n - 1) + base
  {
  }

  lemma RecentStep(base: seq<string>, log: seq<string>, id: string)
    ensures Recent(base, log + [id]) == Foremost(Recent(base, log), id)
  {
    assert (log + [id])[..|log|] == log;
  }

  lemma {:induction false} NewIdsRecent(base: seq<string>, n: nat)
    ensures Recent(base, NewIds(base, n)) == Shifted(base, n) + base
  {
    hide NewId, Without, MaxLength;
    if n == 0 {
      assert [] + base == base;
    } else {
      hide Recent;
      var id, shifted := NewId(base, n), Shifted(base, n - 1);
      NewIdsRecent(base, n - 1);
      RecentStep(base, NewIds(base, n - 1), id);
      NewIdAbsent(base, n);
      WithoutAbsent(shifted + base, id);
      assert [id] + (shifted + base) == ([id] + shifted) + base;
    }
  }

  lemma {:induction false} NewIdsShift(base: seq<string>, n: nat)
    ensures Recent(base, NewIds(base, n)) == Shifted(base, n) + base
    ensures Kept(base, NewIds(base, n)) == KeptOnce(base, NewIds(base, n))
  {
    hide NewId, Shifted, Foremost, Front;
    NewIdsRecent(base, n);
    if n > 0 {
      var log, before := NewIds(base, n), NewIds(base, n - 1);
      assert log[..n - 1] == before && log[n - 1] == NewId(base, n);
      NewIdsShift(base, n - 1);
      NewIdAbsent(base, n);
      if n > 1 { FrontAbsent(Recent(base, before), NewId(base, n)); }
    }
  }

  lemma FrontAbsent(list: seq<string>, id: string)
    requires id !in list
    ensures Front(Foremost(Front(list), id)) == Front(Foremost(list, id))
  {
    hide Foremost;
    TruncateEachOrOnceIff(list, id);
  }

  /** The second place is below the last kept one: new ids push it there. */
  lemma ApartByNewIds(base: seq<string>, i: nat, j: nat, k: nat) returns (log: seq<string>)
    requires i < j < k < |base| && j < MAX_NODE_IDS - 1 && base[i] == base[j] != base[k]
    ensures Kept(base, log) != KeptOnce(base, log)
  {
    hide Kept, KeptOnce, Recent;
    var n := MAX_NODE_IDS - 1 - j;
    var shifted := NewIds(base, n);
    NewIdsShift(base, n);
    var all := Shifted(base, n) + base;
    assert all[..MAX_NODE_IDS][n + i] == all[..MAX_NODE_IDS][n + j] == base[i];
    TwiceCounts(all[..MAX_NODE_IDS], n + i, n + j);
    assert all[MAX_NODE_IDS..][k - j - 1] == base[k];
    ApartAfter(base, shifted, base[i], base[k]);
    log := shifted + [base[i]];
  }

  /** Publishing an id that stands once among the kept leaves the others where they are. */
  lemma OldIdStays(base: seq<string>, x: string)
    requires |base| > MAX_NODE_IDS && multiset(base[..MAX_NODE_IDS])[x] == 1
    ensures var all := Foremost(base, x);
            && |all| >= MAX_NODE_IDS
            && all[MAX_NODE_IDS..] == Without(base[MAX_NODE_IDS..], x)
            && forall a :: a != x ==> multiset(all[..MAX_NODE_IDS])[a] == multiset(base[..MAX_NODE_IDS])[a]
  {
    var kept, rest := base[..MAX_NODE_IDS], base[MAX_NODE_IDS..];
    assert base == kept + rest;
    WithoutConcat(kept, rest, x);
    WithoutCount(kept, x);
    hide Without;
    var front := [x] + Without(kept, x);
    assert Foremost(base, x) == front + Without(rest, x);
    assert |front| == MAX_NODE_IDS;
    forall a | a != x ensures multiset(front)[a] == multiset(kept)[a] { WithoutOthers(kept, x, a); }
  }

  lemma OnePublish(base: seq<string>, x: string)
    ensures Recent(base, [x]) == Foremost(base, x) && Kept(base, [x]) == KeptOnce(base, [x])
  {
    assert [x][..0] == [];
  }

  /** The second place is the last kept one, and the ids before it are all different: publishing one of them
      again leaves it there. */
  lemma ApartByOldId(base: seq<string>, i: nat, k: nat, x: string) returns (log: seq<string>)
    requires i < MAX_NODE_IDS - 1 && MAX_NODE_IDS - 1 < k < |base|
    requires base[i] == base[MAX_NODE_IDS - 1] != base[k]
    requires x != base[i] && x != base[k] && multiset(base[..MAX_NODE_IDS])[x] == 1
    ensures Kept(base, log) != KeptOnce(base, log)
  {
    hide Kept, KeptOnce, Recent, Foremost, Without;
    var rest := base[MAX_NODE_IDS..];
    OldIdStays(base, x);
    OnePublish(base, x);
    var kept := base[..MAX_NODE_IDS];
    assert kept[i] == kept[MAX_NODE_IDS - 1] == base[i];
    TwiceCounts(kept, i, MAX_NODE_IDS - 1);
    assert rest[k - MAX_NODE_IDS] == base[k] && base[k] in Without(rest, x);
    ApartAfter(base, [x], base[i], base[k]);
    log := [x] + [base[i]];
  }

  lemma CountOne(list: seq<string>, q: nat)
    requires q < |list| && forall m | 0 <= m < |list| && m != q :: list[m] != list[q]
    ensures multiset(list)[list[q]] == 1
  {
    var a, b := list[..q], list[q + 1..];
    assert list == a + [list[q]] + b;
    assert list[q] !in a && list[q] !in b;
  }

  /** A list that is not tame, with its first offending second place. */
  lemma ApartSomewhere(base: seq<string>) returns (log: seq<string>)
    requires !Tame(base)
    ensures Kept(base, log) != KeptOnce(base, log)
  {
    var i, j, k :| 0 <= i < j < k < |base| && j < MAX_NODE_IDS && base[i] == base[j] && base[k] != base[j];
    if j < MAX_NODE_IDS - 1 {
      log := ApartByNewIds(base, i, j, k);
    } else if exists a, b :: 0 <= a < b < MAX_NODE_IDS - 1 && base[a] == base[b] {
      var a, b :| 0 <= a < b < MAX_NODE_IDS - 1 && base[a] == base[b];
      log := ApartByNewIds(base, a, b, if base[j] != base[b] then j else k);
    } else {
      // of the ids before the second place one is neither the repeated id nor the one beyond
      assert base[0] != base[1] && base[0] != base[2] && base[1] != base[2];
      var q := if base[0] != base[i] && base[0] != base[k] then 0 else if base[1] != base[i] && base[1] != base[k] then 1 else 2;
      var kept := base[..MAX_NODE_IDS];
      forall m | 0 <= m < MAX_NODE_IDS && m != q ensures kept[m] != kept[q] {
        assert m < MAX_NODE_IDS - 1 || kept[m] == base[i];
        assert m < q || q < m;
      }
      CountOne(kept, q);
      log := ApartByOldId(base, i, k, base[q]);
    }
  }

  /** Truncating on every publish keeps what truncating once at the end would keep, whatever is published,
      exactly when the starting list is tame. */
  lemma TameIff(base: seq<string>)
    ensures Tame(base) <==> forall log: seq<string> :: Kept(base, log) == KeptOnce(base, log)
  {
    hide Tame, Kept, KeptOnce;
    if Tame(base) {
      forall log: seq<string> ensures Kept(base, log) == KeptOnce(base, log) { TameKeepsExactly(base, log); }
    } else {
      var log := ApartSomewhere(base);
    }
  }

  lemma NoRepeatsTame(list: seq<string>)
    requires NoRepeats(list)
    ensures Tame(list)
  {
  }

  // ---- The record being edited ----------------------------------------------------------------

  class Editing {
    var nodeIds: seq<string>
    var origins: seq<string>

    constructor (record: DriveRecord)
      ensures nodeIds == record.nodeIds && origins == record.origins
    {
      nodeIds, origins := record.nodeIds, record.origins;
    }

    /** The id comes first, once, and only the newest entries stay. */
    method AddNodeId(id: string)
      modifies this`nodeIds
      ensures nodeIds == Front(Foremost(old(nodeIds), id))
    {
      nodeIds := Without(nodeIds, id);
      nodeIds := [id] + nodeIds;
      if |nodeIds| > MAX_NODE_IDS { nodeIds := nodeIds[..MAX_NODE_IDS]; }
    }

    /** What was there stays, in place; the item is there; at most one entry is new, and none repeats. */
    method PushUnique(item: string)
      modifies this`origins
      ensures old(origins) <= origins && item in origins
      ensures |origins| == if item in old(origins) then |old(origins)| else |old(origins)| + 1
      ensures NoRepeats(old(origins)) ==> NoRepeats(origins)
    {
      if item !in origins { origins := origins + [item]; }
    }
  }

  // ---- One call -------------------------------------------------------------------------------

  /** What a replica publishes: its id, and its origin once normalized. */
  datatype Call = Call(id: Option<string>, origin: Option<string>)

  function Merged(call: Call, record: DriveRecord): DriveRecord {
    DriveRecord(
      if call.id.Some? then Front(Foremost(record.nodeIds, call.id.value)) else record.nodeIds,
      if call.origin.Some? then Added(record.origins, call.origin.value) else record.origins)
  }

  datatype Packet = Packet(stamp: nat, record: DriveRecord)

  type Register = Option<Packet>

  /** How origins are normalized (`None` when nobody else could reach them) and which records fit a packet. */
  datatype Env = Env(origin: string -> Option<string>, fits: DriveRecord -> bool)

  function Normalized(env: Env, origins: seq<string>): (r: seq<string>)
    ensures |r| <= |origins|
  {
    if origins == [] then []
    else (match env.origin(origins[0]) case Some(o) => [o] case None => []) + Normalized(env, origins[1..])
  }

  /** The record a reader of the register sees. */
  function Parsed(env: Env, register: Register): DriveRecord {
    match register
    case None => NO_RECORD
    case Some(p) => DriveRecord(p.record.nodeIds, Normalized(env, p.record.origins))
  }

  function StampOf(register: Register): Option<nat> {
    match register case None => None case Some(p) => Some(p.stamp)
  }

  /** What the relay told the call: about a read, and about a write. */
  datatype Answer = Unreachable | Current(register: Register)
  datatype Verdict = Accepted | Overtaken | OtherError

  datatype Phase =
    | Reading(attempt: nat)
    | Writing(attempt: nat, cas: Option<nat>, merged: DriveRecord)
    | Finished(ok: bool)

  function Start(call: Call): Phase {
    if call.id.None? && call.origin.None? then Finished(true) else Reading(0)
  }

  function OnRead(env: Env, call: Call, attempt: nat, answer: Answer): Phase {
    match answer
    case Unreachable => Finished(false)
    case Current(register) =>
      var merged := Merged(call, Parsed(env, register));
      if env.fits(merged) then Writing(attempt, StampOf(register), merged) else Finished(false)
  }

  function OnWrite(attempt: nat, verdict: Verdict): Phase {
    match verdict
    case Accepted => Finished(true)
    case Overtaken => if attempt + 1 < ATTEMPTS then Reading(attempt + 1) else Finished(false)
    case OtherError => Finished(false)
  }

  /** The phases of a call against the relay's answers to its reads and writes, in turn. */
  function Plays(env: Env, call: Call, answers: seq<(Answer, Verdict)>, phase: Phase): Phase {
    if answers == [] || !phase.Reading? then phase
    else
      var next := OnRead(env, call, phase.attempt, answers[0].0);
      Plays(env, call, answers[1..], if next.Writing? then OnWrite(next.attempt, answers[0].1) else next)
  }

  /** That determines the list. */
  lemma AddedIs(before: seq<string>, after: seq<string>, item: string)
    requires before <= after && item in after && |after| == if item in before then |before| else |before| + 1
    ensures after == Added(before, item)
  {
    assert after == before + after[|before|..];
    if item !in before { assert |after[|before|..]| == 1; }
  }

  /** The merging step of a call, editing a copy of what it read. */
  method MergeCall(call: Call, read: DriveRecord) returns (merged: DriveRecord)
    ensures merged == Merged(call, read)
  {
    var record := new Editing(read);
    if call.id.Some? { record.AddNodeId(call.id.value); }
    if call.origin.Some? {
      record.PushUnique(call.origin.value);
      AddedIs(read.origins, record.origins, call.origin.value);
    }
    return DriveRecord(record.nodeIds, record.origins);
  }

  /** The merge of what this answer shows could be sent. */
  predicate Sendable(env: Env, call: Call, answer: Answer) {
    answer.Current? && env.fits(Merged(call, Parsed(env, answer.register)))
  }

  /** Attempt `k` is accepted, and all before it were overtaken. */
  predicate TakenAt(env: Env, call: Call, answers: seq<(Answer, Verdict)>, k: nat)
    requires k < |answers|
  {
    && (forall j | 0 <= j < k :: Sendable(env, call, answers[j].0) && answers[j].1.Overtaken?)
    && Sendable(env, call, answers[k].0) && answers[k].1.Accepted?
  }

  /** `publish_drive_record`, against the relay's answers. The call ends within its attempts, ends as its
      phases say, and every packet it sent is the merge of what it had just read, naming that stamp. It succeeds
      exactly when one of its attempts is accepted and those before it were overtaken. */
  method PublishDriveRecord(env: Env, call: Call, answers: seq<(Answer, Verdict)>) returns (ok: bool, sent: seq<(Option<nat>, DriveRecord)>)
    requires |answers| == ATTEMPTS
    ensures Plays(env, call, answers, Start(call)) == Finished(ok)
    ensures |sent| <= ATTEMPTS
    ensures forall k | 0 <= k < |sent| ::
              answers[k].0.Current? && sent[k] == (StampOf(answers[k].0.register), Merged(call, Parsed(env, answers[k].0.register)))
              && (answers[k].1.Accepted? <==> ok && k == |sent| - 1)
    ensures ok ==> sent != [] || call == Call(None, None)
    ensures ok <==> call == Call(None, None) || exists k: nat :: k < ATTEMPTS && TakenAt(env, call, answers, k)
  {
    hide Merged, Parsed;
    sent := [];
    if call.id.None? && call.origin.None? { return true, []; }
    var attempt := 0;
    ghost var phase := Start(call);
    while attempt < ATTEMPTS
      invariant 0 <= attempt <= ATTEMPTS && |sent| == attempt
      invariant attempt < ATTEMPTS ==> phase == Reading(attempt)
      invariant attempt == ATTEMPTS ==> phase == Finished(false)
      invariant Plays(env, call, answers[attempt..], phase) == Plays(env, call, answers, Start(call))
      invariant forall k | 0 <= k < |sent| ::
                  answers[k].0.Current? && sent[k] == (StampOf(answers[k].0.register), Merged(call, Parsed(env, answers[k].0.register)))
                  && Sendable(env, call, answers[k].0) && answers[k].1.Overtaken?
    {
      var answer, verdict := answers[attempt].0, answers[attempt].1;
      assert answers[attempt..][1..] == answers[attempt + 1..];
      if answer.Unreachable? { return false, sent; }
      var merged := MergeCall(call, Parsed(env, answer.register));
      if !env.fits(merged) { return false, sent; }
      sent := sent + [(StampOf(answer.register), merged)];
      match verdict {
        case Accepted =>
          assert TakenAt(env, call, answers, attempt);
          return true, sent;
        case Overtaken =>
          attempt := attempt + 1;
          phase := if attempt < ATTEMPTS then Reading(attempt) else Finished(false);
        case OtherError => return false, sent;
      }
    }
    return false, sent;
  }
}