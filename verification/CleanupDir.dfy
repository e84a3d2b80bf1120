/**
 UTIL_cleanup_dir of util.c: one pass over a directory keeps the newest K entries in a heap and lists
 the others for deletion, with K + 1 records that are used over and over.
 */
module CleanupDir {
  import opened Common
  import opened PriorityQueue

  /** What the listing says of one entry: its name, and its score if it could be examined. */
  datatype Dirent = Dirent(name: string, score: Option<int>)

  predicate Accepted(ent: Dirent, ignoreHidden: bool) {
    && ent.name != "." && ent.name != ".."
    && !(ignoreHidden && |ent.name| > 0 && ent.name[0] == '.')
    && ent.score.Some?
  }

  /** The entries among the first `n` of the listing that take part, by position. */
  function Candidates(listing: seq<Dirent>, ignoreHidden: bool, n: nat): set<int>
    requires n <= |listing|
  {
    set j | 0 <= j < n && Accepted(listing[j], ignoreHidden)
  }

  lemma CandidatesStep(listing: seq<Dirent>, ignoreHidden: bool, i: nat)
    requires i < |listing|
    ensures Candidates(listing, ignoreHidden, i + 1) ==
            Candidates(listing, ignoreHidden, i) + if Accepted(listing[i], ignoreHidden) then {i} else {}
    ensures |Candidates(listing, ignoreHidden, i + 1)| ==
            |Candidates(listing, ignoreHidden, i)| + if Accepted(listing[i], ignoreHidden) then 1 else 0
  {
    assert i !in Candidates(listing, ignoreHidden, i);
    assert Candidates(listing, ignoreHidden, i + 1) ==
           Candidates(listing, ignoreHidden, i) + if Accepted(listing[i], ignoreHidden) then {i} else {};
  }

  // ---------------------------------------------------------------- the state of the pass

  /** The records stand for different candidates, none of them to be deleted; `of` says which. */
  ghost predicate Records(es: set<Entry>, of: map<Entry, int>, gone: set<int>, cands: set<int>) {
    && (forall e :: e in es ==> e in of && of[e] in cands && of[e] !in gone)
    && (forall e, f :: e in es && f in es && of[e] == of[f] ==> e == f)
  }

  /** No entry to be deleted is newer than one with a record in use. */
  ghost predicate OldestGo(es: set<Entry>, of: map<Entry, int>, gone: set<int>, listing: seq<Dirent>) {
    forall e, j :: e in es && j in gone ==> e in of && NoNewer(listing, j, of[e])
  }

  predicate NoNewer(listing: seq<Dirent>, a: int, b: int) {
    && 0 <= a < |listing| && 0 <= b < |listing| && listing[a].score.Some? && listing[b].score.Some?
    && listing[a].score.value <= listing[b].score.value
  }

  /** After `i` entries of the listing: the records in use and the entries to delete are all the
      candidates, as many as allowed are kept, and the oldest go. */
  ghost predicate Balanced(es: set<Entry>, of: map<Entry, int>, gone: set<int>, listing: seq<Dirent>,
                           ignoreHidden: bool, i: nat, max: nat)
    requires i <= |listing|
  {
    && Records(es, of, gone, Candidates(listing, ignoreHidden, i))
    && OldestGo(es, of, gone, listing)
    && gone <= Candidates(listing, ignoreHidden, i)
    && |Candidates(listing, ignoreHidden, i)| == |es| + |gone|
    && |es| <= max
    && (gone != {} ==> |es| == max)
  }

  lemma Refill(es: set<Entry>, of: map<Entry, int>, gone: set<int>, listing: seq<Dirent>, ignoreHidden: bool, i: nat,
               max: nat, next: Entry)
    requires i < |listing| && Balanced(es, of, gone, listing, ignoreHidden, i, max) && next !in es
    ensures Balanced(es, of[next := i], gone, listing, ignoreHidden, i, max)
  {}

  lemma BalancedSkip(es: set<Entry>, of: map<Entry, int>, gone: set<int>, listing: seq<Dirent>, ignoreHidden: bool,
                     i: nat, max: nat)
    requires i < |listing| && !Accepted(listing[i], ignoreHidden)
    requires Balanced(es, of, gone, listing, ignoreHidden, i, max)
    ensures Balanced(es, of, gone, listing, ignoreHidden, i + 1, max)
  {
    CandidatesStep(listing, ignoreHidden, i);
  }

  lemma RecordsPlus(es: set<Entry>, of: map<Entry, int>, gone: set<int>, cands: set<int>, next: Entry)
    requires Records(es, of, gone, cands) && next in of && of[next] !in cands && of[next] !in gone
    ensures Records(es + {next}, of, gone, cands + {of[next]})
  {}

  lemma RecordsMinus(es: set<Entry>, of: map<Entry, int>, gone: set<int>, cands: set<int>, out: Entry)
    requires Records(es, of, gone, cands) && out in es
    ensures Records(es - {out}, of, gone + {of[out]}, cands)
  {}

  lemma BalancedRoom(es: set<Entry>, of: map<Entry, int>, gone: set<int>, listing: seq<Dirent>, ignoreHidden: bool,
                     i: nat, max: nat, next: Entry)
    requires i < |listing| && Accepted(listing[i], ignoreHidden)
    requires Balanced(es, of, gone, listing, ignoreHidden, i, max)
    requires next !in es && next in of && of[next] == i && |es + {next}| <= max
    ensures Balanced(es + {next}, of, gone, listing, ignoreHidden, i + 1, max)
  {
    CandidatesStep(listing, ignoreHidden, i);
    RecordsPlus(es, of, gone, Candidates(listing, ignoreHidden, i), next);
    assert |es + {next}| == |es| + 1;
    assert gone == {};
  }

  lemma BalancedFull(es: set<Entry>, of: map<Entry, int>, gone: set<int>, listing: seq<Dirent>, ignoreHidden: bool,
                     i: nat, max: nat, next: Entry, out: Entry)
    requires i < |listing| && Accepted(listing[i], ignoreHidden)
    requires Balanced(es, of, gone, listing, ignoreHidden, i, max)
    requires next !in es && next in of && of[next] == i && |es + {next}| > max
    requires out in es + {next} && forall e :: e in es + {next} ==> NoNewer(listing, of[out], of[e])
    ensures Balanced(es + {next} - {out}, of, gone + {of[out]}, listing, ignoreHidden, i + 1, max)
    ensures of[out] !in gone
  {
    CandidatesStep(listing, ignoreHidden, i);
    var cands := Candidates(listing, ignoreHidden, i);
    RecordsPlus(es, of, gone, cands, next);
    RecordsMinus(es + {next}, of, gone, cands + {i}, out);
    assert |es + {next}| == |es| + 1 && |es + {next} - {out}| == |es|;
    assert |gone + {of[out]}| == |gone| + 1;
    forall e, j | e in es + {next} - {out} && j in gone + {of[out]} ensures NoNewer(listing, j, of[e]) {
      if j != of[out] && e == next {
        assert out in es;
      }
    }
  }

  // ---------------------------------------------------------------- records and queue

  /** The records carry the number and the score of the entries they stand for. */
  ghost predicate Filled(es: set<Entry>, of: map<Entry, int>, listing: seq<Dirent>)
    reads es`info, es`pri
  {
    forall e :: e in es ==> e in of && e.info == of[e] && 0 <= of[e] < |listing| && listing[of[e]].score == Some(e.pri)
  }

  method AllocateRecords(n: nat) returns (records: seq<Entry>)
    ensures |records| == n && forall i :: 0 <= i < n ==> fresh(records[i])
    ensures forall i, j :: 0 <= i < j < n ==> records[i] != records[j]
  {
    records := [];
    for i := 0 to n
      invariant |records| == i && forall j :: 0 <= j < i ==> fresh(records[j])
      invariant forall j, k :: 0 <= j < k < i ==> records[j] != records[k]
    {
      var r := new Entry(0, 0);
      records := records + [r];
    }
  }

  /** The entry read from the directory overwrites a record that is not in use. */
  method FillIn(q: PQueue, next: Entry, listing: seq<Dirent>, ignoreHidden: bool, i: nat, ghost of: map<Entry, int>)
    requires q.Valid() && next !in q.Elems && i < |listing| && Filled(q.Elems, of, listing)
    modifies next`info, next`pri
    ensures q.Valid() && Filled(q.Elems, of[next := i], listing)
    ensures Accepted(listing[i], ignoreHidden) ==> Filled({next}, of[next := i], listing)
  {
    next.info := i;
    if Accepted(listing[i], ignoreHidden) {
      next.pri := listing[i].score.value;
    }
  }

  method Put(q: PQueue, next: Entry, ghost of: map<Entry, int>, ghost listing: seq<Dirent>)
    requires q.Valid() && next !in q.Elems && Filled(q.Elems, of, listing) && Filled({next}, of, listing)
    modifies q, q.d, q.Elems`pos, next`pos
    ensures q.Valid() && (q.d == old(q.d) || fresh(q.d)) && q.Elems == old(q.Elems) + {next}
    ensures Filled(q.Elems, of, listing)
  {
    ghost var es := q.Elems;
    q.Insert(next);
    assert Filled(es, of, listing);
    FilledPlus(es, next, of, listing);
  }

  lemma FilledPlus(es: set<Entry>, next: Entry, of: map<Entry, int>, listing: seq<Dirent>)
    requires Filled(es, of, listing) && Filled({next}, of, listing)
    ensures Filled(es + {next}, of, listing)
  {
    assert next in {next};
  }

  /** The oldest record comes out if there are more than `max`. */
  method PopIfOver(q: PQueue, max: nat, ghost of: map<Entry, int>, ghost listing: seq<Dirent>) returns (out: Entry?)
    requires q.Valid() && Filled(q.Elems, of, listing)
    modifies q, q.d, q.Elems`pos
    ensures q.Valid() && q.d == old(q.d) && (out == null <==> |old(q.Elems)| <= max)
    ensures out == null ==> q.Elems == old(q.Elems)
    ensures out != null ==> out in old(q.Elems) && q.Elems == old(q.Elems) - {out} && out.info == of[out]
    ensures out != null ==> forall e :: e in old(q.Elems) ==> NoNewer(listing, of[out], of[e])
    ensures Filled(q.Elems, of, listing)
  {
    var n := q.Size();
    if n > max {
      ghost var es := q.Elems;
      out := q.Pop();
      assert Filled(es, of, listing);
    } else {
      out := null;
    }
  }

  /** One accepted entry: its record goes in, and the oldest comes out if that makes one too many. */
  method Admit(q: PQueue, next: Entry, max: nat, ghost of: map<Entry, int>, ghost gone: set<int>,
               ghost listing: seq<Dirent>, ghost ignoreHidden: bool, ghost i: nat) returns (out: Entry?)
    requires i < |listing| && Accepted(listing[i], ignoreHidden)
    requires Balanced(q.Elems, of, gone, listing, ignoreHidden, i, max)
    requires q.Valid() && next !in q.Elems && Filled(q.Elems, of, listing) && Filled({next}, of, listing)
    requires of[next] == i
    modifies q, q.d, q.Elems`pos, next`pos
    ensures q.Valid() && (q.d == old(q.d) || fresh(q.d)) && Filled(q.Elems, of, listing)
    ensures out == null ==>
      q.Elems == old(q.Elems) + {next} && Balanced(q.Elems, of, gone, listing, ignoreHidden, i + 1, max)
    ensures out == null ==> gone == {} && |q.Elems| <= max
    ensures out != null ==>
      out in old(q.Elems) + {next} && q.Elems == old(q.Elems) + {next} - {out} && out.info == of[out]
    ensures out != null ==>
      of[out] !in gone && Balanced(q.Elems, of, gone + {of[out]}, listing, ignoreHidden, i + 1, max)
  {
    ghost var es := q.Elems;
    Put(q, next, of, listing);
    out := PopIfOver(q, max, of, listing);
    if out == null {
      BalancedRoom(es, of, gone, listing, ignoreHidden, i, max, next);
    } else {
      BalancedFull(es, of, gone, listing, ignoreHidden, i, max, next, out);
    }
  }

  // ---------------------------------------------------------------- the listing loop

  /** Of all candidates those not in `gone` are kept: min(n, K) of them, and nothing that goes is newer
      than anything that stays. */
  ghost predicate KeepsNewest(gone: set<int>, listing: seq<Dirent>, ignoreHidden: bool, max: nat) {
    var all := Candidates(listing, ignoreHidden, |listing|);
    && gone <= all
    && |all - gone| == (if |all| < max then |all| else max)
    && forall a, b :: a in all - gone && b in gone ==> NoNewer(listing, b, a)
  }

  lemma {:induction false} ImageCount(es: set<Entry>, of: map<Entry, int>) returns (image: set<int>)
    requires forall e :: e in es ==> e in of
    requires forall e, f :: e in es && f in es && of[e] == of[f] ==> e == f
    ensures |image| == |es| && forall j :: j in image <==> exists e :: e in es && of[e] == j
    decreases es
  {
    if es == {} {
      image := {};
    } else {
      var e :| e in es;
      var rest := ImageCount(es - {e}, of);
      image := rest + {of[e]};
      assert |es| == |es - {e}| + 1;
      forall j ensures j in image <==> exists x :: x in es && of[x] == j {
        if x :| x in es && of[x] == j {
          assert x == e || x in es - {e};
        }
      }
    }
  }

  /** Balanced books at the end of the listing mean that the newest candidates are the ones kept. */
  lemma BalancedKeepsNewest(es: set<Entry>, of: map<Entry, int>, gone: set<int>, listing: seq<Dirent>,
                            ignoreHidden: bool, max: nat)
    requires Balanced(es, of, gone, listing, ignoreHidden, |listing|, max)
    ensures KeepsNewest(gone, listing, ignoreHidden, max)
    ensures |es| + |gone| == |Candidates(listing, ignoreHidden, |listing|)|
    ensures forall j :: j in Candidates(listing, ignoreHidden, |listing|) - gone ==> exists e :: e in es && of[e] == j
  {
    var all := Candidates(listing, ignoreHidden, |listing|);
    var image := ImageCount(es, of);
    assert |all - gone| == |all| - |gone| == |image|;
    assert image <= all - gone;
    SameSize(image, all - gone);
    forall a, b | a in all - gone && b in gone ensures NoNewer(listing, b, a) {
      assert a in image;
      var e :| e in es && of[e] == a;
    }
  }

  lemma SameSize(a: set<int>, b: set<int>)
    requires a <= b && |a| == |b|
    ensures a == b
  {
    assert b == a + (b - a);
    assert |b| == |a| + |b - a|;
  }

  function ToSet(s: seq<int>): set<int> {
    set j | j in s
  }

  ghost predicate Distinct(s: seq<int>) {
    forall a, b :: 0 <= a < b < |s| ==> s[a] != s[b]
  }

  lemma Prepend(x: int, s: seq<int>)
    requires Distinct(s) && x !in ToSet(s)
    ensures Distinct([x] + s) && ToSet([x] + s) == ToSet(s) + {x}
  {
    assert forall j :: j in [x] + s <==> j == x || j in s;
  }

  lemma {:induction false} DistinctCount(s: seq<int>)
    requires Distinct(s)
    ensures |ToSet(s)| == |s|
    decreases |s|
  {
    if s == [] {
      assert ToSet(s) == {};
    } else {
      DistinctCount(s[1..]);
      assert s[0] !in ToSet(s[1..]);
      assert s == [s[0]] + s[1..];
      Prepend(s[0], s[1..]);
    }
  }

  lemma NonEmptySet(s: seq<int>)
    ensures s != [] ==> ToSet(s) != {}
  {
    assert s != [] ==> s[0] in ToSet(s);
  }

  /** `next` is a record that is not in use; until the first record came out, it is the one after the
      `used` records in use. */
  ghost predicate Stock(records: seq<Entry>, used: nat, next: Entry, es: set<Entry>, unlink: seq<int>) {
    && (forall i, j :: 0 <= i < j < |records| ==> records[i] != records[j])
    && next in records && next !in es
    && (forall e :: e in es ==> e in records)
    && (unlink == [] ==>
          used == |es| < |records| && next == records[used] && forall e :: e in es ==> e in records[..used])
  }

  lemma StockRecycled(records: seq<Entry>, used: nat, next: Entry, es: set<Entry>, unlink: seq<int>, out: Entry,
                      unlink': seq<int>)
    requires Stock(records, used, next, es, unlink) && out in es + {next} && unlink' != []
    ensures Stock(records, used, out, es + {next} - {out}, unlink')
  {}

  lemma StockAdvanced(records: seq<Entry>, used: nat, next: Entry, es: set<Entry>, unlink: seq<int>)
    requires Stock(records, used, next, es, unlink) && unlink == [] && |es + {next}| < |records|
    ensures used + 1 < |records| && Stock(records, used + 1, records[used + 1], es + {next}, unlink)
  {
    assert |es + {next}| == |es| + 1;
    assert records[..used + 1] == records[..used] + [records[used]];
  }

  /** The outcome of the pass: min(n, K) records are queued, one for each candidate that is not to be
      deleted, the others are listed once each, and none of them is newer than one that stays. */
  ghost predicate Settled(es: set<Entry>, of: map<Entry, int>, unlink: seq<int>, listing: seq<Dirent>,
                          ignoreHidden: bool, max: nat) {
    var all := Candidates(listing, ignoreHidden, |listing|);
    && Distinct(unlink) && Records(es, of, ToSet(unlink), all) && KeepsNewest(ToSet(unlink), listing, ignoreHidden, max)
    && |es| == (if |all| < max then |all| else max) && |es| + |unlink| == |all|
    && forall j :: j in all && j !in unlink ==> exists e :: e in es && of[e] == j
  }

  lemma BalancedSettles(es: set<Entry>, of: map<Entry, int>, unlink: seq<int>, listing: seq<Dirent>, ignoreHidden: bool,
                        max: nat)
    requires Distinct(unlink) && Balanced(es, of, ToSet(unlink), listing, ignoreHidden, |listing|, max)
    ensures Settled(es, of, unlink, listing, ignoreHidden, max)
  {
    var all := Candidates(listing, ignoreHidden, |listing|);
    BalancedKeepsNewest(es, of, ToSet(unlink), listing, ignoreHidden, max);
    DistinctCount(unlink);
    assert |all - ToSet(unlink)| == |all| - |ToSet(unlink)|;
    forall j | j in all && j !in unlink ensures exists e :: e in es && of[e] == j {
      assert j in all - ToSet(unlink);
    }
  }

  /** Whatever the order of the listing and whatever K: the queue ends up with min(n, K) entries, the
      newest, one record each, and the others are listed for deletion, none of them twice. */
  method KeepNewest(listing: seq<Dirent>, ignoreHidden: bool, maxEntries: int)
    returns (unlink: seq<int>, q: PQueue, ghost of: map<Entry, int>)
    ensures fresh(q) && q.Valid() && Filled(q.Elems, of, listing)
    ensures Settled(q.Elems, of, unlink, listing, ignoreHidden, if maxEntries <= 0 then 1 else maxEntries)
    ensures |q.Elems| + |unlink| == |TakingPart(listing, ignoreHidden)|
    ensures forall j :: j in unlink ==> j in TakingPart(listing, ignoreHidden)
  {
    var max: nat := if maxEntries <= 0 then 1 else maxEntries;
    q := new PQueue(max + 5);
    var records := AllocateRecords(max + 1);
    var used, next: Entry := 0, records[0];
    unlink, of := [], map[];
    for i := 0 to |listing|
      invariant fresh(q) && fresh(q.d) && q.Valid() && forall e :: e in records ==> fresh(e)
      invariant Underway(q, records, used, next, unlink, max, of, listing, ignoreHidden, i)
    {
      next, used, unlink, of := Round(q, records, used, next, unlink, max, of, listing, ignoreHidden, i);
    }
    BalancedSettles(q.Elems, of, unlink, listing, ignoreHidden, max);
    TakePart(listing, ignoreHidden);
    assert forall j :: j in unlink ==> j in ToSet(unlink);
  }

  /** The entries that are files to keep or delete: not the directory itself nor the one above it, not
      hidden if those are to be left alone, and known to the file system. */
  ghost function TakingPart(listing: seq<Dirent>, ignoreHidden: bool): set<int> {
    set j | 0 <= j < |listing| && listing[j].score.Some?
            && listing[j].name !in {".", ".."} && (ignoreHidden ==> !("." <= listing[j].name))
  }

  lemma TakePart(listing: seq<Dirent>, ignoreHidden: bool)
    ensures Candidates(listing, ignoreHidden, |listing|) == TakingPart(listing, ignoreHidden)
  {
    forall j | 0 <= j < |listing|
      ensures "." <= listing[j].name <==> |listing[j].name| > 0 && listing[j].name[0] == '.'
    {}
  }

  /** The state of the pass after `i` entries. */
  ghost predicate Underway(q: PQueue, records: seq<Entry>, used: nat, next: Entry, unlink: seq<int>, max: nat,
                           of: map<Entry, int>, listing: seq<Dirent>, ignoreHidden: bool, i: nat)
    requires i <= |listing|
    reads q, q.Elems`info, q.Elems`pri
  {
    && Filled(q.Elems, of, listing)
    && Stock(records, used, next, q.Elems, unlink) && |records| == max + 1
    && Distinct(unlink)
    && Balanced(q.Elems, of, ToSet(unlink), listing, ignoreHidden, i, max)
  }

  method Round(q: PQueue, records: seq<Entry>, used: nat, next: Entry, unlink: seq<int>, max: nat,
               ghost of: map<Entry, int>, listing: seq<Dirent>, ignoreHidden: bool, i: nat)
    returns (next': Entry, used': nat, unlink': seq<int>, ghost of': map<Entry, int>)
    requires i < |listing| && q.Valid() && Underway(q, records, used, next, unlink, max, of, listing, ignoreHidden, i)
    modifies q, q.d, q.Elems`pos, next
    ensures q.Valid() && (q.d == old(q.d) || fresh(q.d))
    ensures Underway(q, records, used', next', unlink', max, of', listing, ignoreHidden, i + 1)
  {
    FillIn(q, next, listing, ignoreHidden, i, of);
    Refill(q.Elems, of, ToSet(unlink), listing, ignoreHidden, i, max, next);
    of' := of[next := i];
    if Accepted(listing[i], ignoreHidden) {
      next', used', unlink' := Visit(q, records, used, next, unlink, max, of', listing, ignoreHidden, i);
    } else {
      next', used', unlink' := next, used, unlink;
      BalancedSkip(q.Elems, of', ToSet(unlink), listing, ignoreHidden, i, max);
    }
  }

  /** The heap part of one round, and the choice of the record to fill in next. */
  method Visit(q: PQueue, records: seq<Entry>, used: nat, next: Entry, unlink: seq<int>, max: nat,
               ghost of: map<Entry, int>, ghost listing: seq<Dirent>, ghost ignoreHidden: bool, ghost i: nat)
    returns (next': Entry, used': nat, unlink': seq<int>)
    requires i < |listing| && Accepted(listing[i], ignoreHidden)
    requires Balanced(q.Elems, of, ToSet(unlink), listing, ignoreHidden, i, max)
    requires q.Valid() && Filled(q.Elems, of, listing) && Filled({next}, of, listing) && of[next] == i
    requires Stock(records, used, next, q.Elems, unlink) && |records| == max + 1
    requires Distinct(unlink)
    modifies q, q.d, q.Elems`pos, next`pos
    ensures q.Valid() && (q.d == old(q.d) || fresh(q.d)) && Filled(q.Elems, of, listing)
    ensures Balanced(q.Elems, of, ToSet(unlink'), listing, ignoreHidden, i + 1, max)
    ensures Stock(records, used', next', q.Elems, unlink')
    ensures Distinct(unlink')
  {
    ghost var es := q.Elems;
    var out := Admit(q, next, max, of, ToSet(unlink), listing, ignoreHidden, i);
    if out != null {
      next', used', unlink' := out, used, [out.info] + unlink;
      StockRecycled(records, used, next, es, unlink, out, unlink');
      Prepend(of[out], unlink);
    } else {
      NonEmptySet(unlink);
      StockAdvanced(records, used, next, es, unlink);
      next', used', unlink' := records[used + 1], used + 1, unlink;
    }
  }
}
