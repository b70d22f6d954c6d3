/**
The approval records of a run, newest first: creation time and then id, both descending,
whatever order the store returns them in.
*/
module ApprovalOrder {
  import opened Wrappers
  import opened Text

  /** `rest` is everything the order does not look at. */
  datatype Approval = Approval(id: string, created: int, rest: string)

  /** The less function given to sort.Slice. */
  predicate Before(a: Approval, b: Approval) {
    if a.created != b.created then a.created > b.created else LexLess(b.id, a.id)
  }

  predicate SameKey(a: Approval, b: Approval) {
    a.created == b.created && a.id == b.id
  }

  ghost predicate Sorted(s: seq<Approval>) {
    forall i, j | 0 <= i < j < |s| :: !Before(s[j], s[i])
  }

  /** What sort.Slice promises: the same records, none before an earlier one. */
  ghost predicate IsListing(recs: seq<Approval>, out: seq<Approval>) {
    multiset(out) == multiset(recs) && Sorted(out)
  }

  lemma BeforeTotal(a: Approval, b: Approval)
    ensures Before(a, b) || Before(b, a) || SameKey(a, b)
  {
    LexTotal(a.id, b.id);
  }

  lemma BeforeAsymmetric(a: Approval, b: Approval)
    requires Before(a, b)
    ensures !Before(b, a) && !SameKey(a, b)
  {
    if a.created == b.created {
      LexAsymmetric(b.id, a.id);
    }
  }

  lemma BeforeTransitive(a: Approval, b: Approval, c: Approval)
    requires Before(a, b) && !Before(c, b)
    ensures Before(a, c)
  {
    BeforeTotal(b, c);
    if a.created == b.created == c.created && b.id != c.id {
      LexTransitive(c.id, b.id, a.id);
    }
  }

  /** Nothing before it: a head of a sorted list comes before, or ties with, every record of it. */
  lemma SortedHeads(a: seq<Approval>, b: seq<Approval>)
    requires a != [] && multiset(a) == multiset(b) && Sorted(a) && Sorted(b)
    ensures b != [] && SameKey(a[0], b[0])
  {
    assert a[0] in multiset(b);
    assert b != [];
    assert b[0] in multiset(a);
    var i :| 0 <= i < |b| && b[i] == a[0];
    var j :| 0 <= j < |a| && a[j] == b[0];
    NotBeforeItself(a[0]);
    assert !Before(a[0], b[0]) && !Before(b[0], a[0]);
    BeforeTotal(a[0], b[0]);
  }

  lemma NotBeforeItself(a: Approval)
    ensures !Before(a, a)
  {
    LexIrreflexive(a.id);
  }

  /** No two different records tie. */
  ghost predicate KeysIdentify(recs: seq<Approval>) {
    forall i, j | 0 <= i < |recs| && 0 <= j < |recs| && SameKey(recs[i], recs[j]) :: recs[i] == recs[j]
  }

  lemma TailMultiset(a: seq<Approval>)
    requires a != []
    ensures multiset(a[1..]) == multiset(a) - multiset{a[0]}
  {
    assert a == [a[0]] + a[1..];
  }

  lemma TailSorted(a: seq<Approval>)
    requires a != [] && Sorted(a)
    ensures Sorted(a[1..])
  {
    forall i, j | 0 <= i < j < |a[1..]| ensures !Before(a[1..][j], a[1..][i]) {
      assert !Before(a[j + 1], a[i + 1]);
    }
  }

  lemma TailKeys(a: seq<Approval>)
    requires a != [] && KeysIdentify(a)
    ensures KeysIdentify(a[1..])
  {
    assert forall i | 0 <= i < |a[1..]| :: a[1..][i] == a[i + 1];
  }

  lemma SameHead(a: seq<Approval>, b: seq<Approval>)
    requires a != [] && multiset(a) == multiset(b) && Sorted(a) && Sorted(b) && KeysIdentify(a)
    ensures b != [] && a[0] == b[0]
  {
    SortedHeads(a, b);
    assert b[0] in multiset(a);
    var j :| 0 <= j < |a| && a[j] == b[0];
  }

  lemma {:induction false} SortedUnique(a: seq<Approval>, b: seq<Approval>)
    requires multiset(a) == multiset(b) && Sorted(a) && Sorted(b) && KeysIdentify(a)
    ensures a == b
    decreases |a|
  {
    if a == [] {
      assert |multiset(b)| == 0;
    } else {
      SameHead(a, b);
      TailMultiset(a);
      TailMultiset(b);
      TailSorted(a);
      TailSorted(b);
      TailKeys(a);
      SortedUnique(a[1..], b[1..]);
      assert a == [a[0]] + a[1..] && b == [b[0]] + b[1..];
    }
  }

  lemma SwapKeepsMultiset(s: seq<Approval>, i: nat, j: nat)
    requires i < j < |s|
    ensures multiset(s[i := s[j]][j := s[i]]) == multiset(s)
  {
  }

  lemma SwapKeepsSorted(s: seq<Approval>, i: nat, j: nat)
    requires i < j < |s| && Sorted(s) && SameKey(s[i], s[j])
    ensures Sorted(s[i := s[j]][j := s[i]])
  {
    var t := s[i := s[j]][j := s[i]];
    forall k | 0 <= k < |s| ensures SameKey(t[k], s[k]) {
    }
    forall x, y | 0 <= x < y < |t| ensures !Before(t[y], t[x]) {
      assert !Before(s[y], s[x]);
    }
  }

  ghost predicate OneListing(recs: seq<Approval>) {
    forall a: seq<Approval>, b: seq<Approval> | IsListing(recs, a) && IsListing(recs, b) :: a == b
  }

  /** The key of a listing's records identifies them when that of the store's records does. */
  lemma KeysOfListing(recs: seq<Approval>, out: seq<Approval>)
    requires multiset(out) == multiset(recs)
    ensures KeysIdentify(recs) <==> KeysIdentify(out)
  {
    KeysTransfer(recs, out);
    KeysTransfer(out, recs);
  }

  lemma KeysTransfer(recs: seq<Approval>, out: seq<Approval>)
    requires multiset(out) == multiset(recs)
    ensures KeysIdentify(recs) ==> KeysIdentify(out)
  {
    forall k | 0 <= k < |out| ensures out[k] in recs {
      assert out[k] in multiset(recs);
    }
  }

  /**
  The listing is canonical, the same from every store order and every sorting algorithm,
  exactly when no two different records share creation time and id.
  */
  lemma CanonicalExactly(recs: seq<Approval>, out: seq<Approval>)
    requires IsListing(recs, out)
    ensures OneListing(recs) <==> KeysIdentify(recs)
  {
    KeysOfListing(recs, out);
    if KeysIdentify(recs) {
      forall a: seq<Approval>, b: seq<Approval> | IsListing(recs, a) && IsListing(recs, b) ensures a == b {
        KeysOfListing(recs, a);
        SortedUnique(a, b);
      }
    } else {
      Tie(recs, out);
    }
  }

  lemma Tie(recs: seq<Approval>, out: seq<Approval>)
    requires IsListing(recs, out) && !KeysIdentify(out)
    ensures !OneListing(recs)
  {
    var i, j :| 0 <= i < |out| && 0 <= j < |out| && SameKey(out[i], out[j]) && out[i] != out[j];
    var x, y := if i < j then i else j, if i < j then j else i;
    var other := Swapped(recs, out, x, y);
  }

  lemma Swapped(recs: seq<Approval>, out: seq<Approval>, x: nat, y: nat) returns (other: seq<Approval>)
    requires IsListing(recs, out) && x < y < |out| && SameKey(out[x], out[y]) && out[x] != out[y]
    ensures IsListing(recs, other) && other != out
  {
    SwapKeepsMultiset(out, x, y);
    SwapKeepsSorted(out, x, y);
    other := out[x := out[y]][y := out[x]];
    assert other[x] != out[x];
  }

  /** Records with distinct ids have one listing, whatever the store order. */
  lemma StoreOrderIrrelevant(recs: seq<Approval>, recs': seq<Approval>, out: seq<Approval>, out': seq<Approval>)
    requires multiset(recs) == multiset(recs') && IsListing(recs, out) && IsListing(recs', out')
    requires forall i, j | 0 <= i < j < |recs| :: recs[i].id != recs[j].id
    ensures out == out'
  {
    assert KeysIdentify(recs);
    KeysOfListing(recs, out);
    SortedUnique(out, out');
  }

  // ----- ListByRun

  /** A stored row; None when it cannot be decoded. */
  function Decodable(rows: seq<Option<Approval>>): seq<Approval> {
    if rows == [] then []
    else Decodable(rows[..|rows| - 1])
         + if rows[|rows| - 1].Some? then [rows[|rows| - 1].value] else []
  }

  method Insert(s: seq<Approval>, r: Approval) returns (t: seq<Approval>)
    requires Sorted(s)
    ensures Sorted(t) && multiset(t) == multiset(s) + multiset{r}
  {
    var p := 0;
    while p < |s| && !Before(r, s[p])
      invariant 0 <= p <= |s|
      invariant forall i | 0 <= i < p :: !Before(r, s[i])
    {
      p := p + 1;
    }
    t := s[..p] + [r] + s[p..];
    assert s == s[..p] + s[p..];
    InsertSorted(s, r, p);
  }

  lemma InsertSorted(s: seq<Approval>, r: Approval, p: nat)
    requires Sorted(s) && p <= |s| && (forall i | 0 <= i < p :: !Before(r, s[i])) && (p < |s| ==> Before(r, s[p]))
    ensures Sorted(s[..p] + [r] + s[p..])
  {
    forall j | p <= j < |s| ensures !Before(s[j], r) {
      if p < j {
        BeforeTransitive(r, s[p], s[j]);
      }
      BeforeAsymmetric(r, s[j]);
    }
  }

  /** ListByRun: undecodable rows are skipped, the others come sorted. */
  method ListByRun(rows: seq<Option<Approval>>) returns (out: seq<Approval>)
    ensures IsListing(Decodable(rows), out)
    ensures forall i, j | 0 <= i < j < |out| ::
              out[i].created > out[j].created
              || (out[i].created == out[j].created && !LexLess(out[i].id, out[j].id))
  {
    var result: seq<Approval> := [];
    for i := 0 to |rows|
      invariant result == Decodable(rows[..i])
    {
      assert rows[..i + 1][..i] == rows[..i];
      if rows[i].Some? {
        result := result + [rows[i].value];
      }
    }
    assert rows[..|rows|] == rows;
    out := [];
    for i := 0 to |result|
      invariant Sorted(out) && multiset(out) == multiset(result[..i])
    {
      assert result[..i + 1] == result[..i] + [result[i]];
      out := Insert(out, result[i]);
    }
    assert result[..|result|] == result;
    forall i, j | 0 <= i < j < |out|
      ensures out[i].created > out[j].created
              || (out[i].created == out[j].created && !LexLess(out[i].id, out[j].id))
    {
      NewestFirst(out, i, j);
    }
  }

  lemma NewestFirst(out: seq<Approval>, i: nat, j: nat)
    requires Sorted(out) && i < j < |out|
    ensures out[i].created > out[j].created
            || (out[i].created == out[j].created && !LexLess(out[i].id, out[j].id))
  {
    assert !Before(out[j], out[i]);
  }

  /** The undecodable rows are the ones left out. */
  lemma {:induction false} DecodableExactly(rows: seq<Option<Approval>>, a: Approval)
    ensures a in Decodable(rows) <==> Some(a) in rows
    decreases |rows|
  {
    if rows != [] {
      DecodableExactly(rows[..|rows| - 1], a);
      assert rows == rows[..|rows| - 1] + [rows[|rows| - 1]];
    }
  }
}
