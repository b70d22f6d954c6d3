/**
Walking a paged listing, and the status filter that compacts the result in its own array.
*/
module Paging {
  import opened Wrappers

  datatype Target = Target(name: string, status: string)

  datatype Reply<T> = Failed | Page(rows: seq<T>, next: string)

  function Flatten<T>(pages: seq<seq<T>>): seq<T> {
    if pages == [] then [] else Flatten(pages[..|pages| - 1]) + pages[|pages| - 1]
  }

  /**
  The server cuts one sequence into these pages, in order, and hands them out under these tokens,
  the first of them empty; any request may fail, and a page may be empty.
  */
  ghost predicate Serves<T(!new)>(pages: seq<seq<T>>, tokens: seq<string>, reply: string -> Reply<T>) {
    && |tokens| == |pages| > 0 && tokens[0] == ""
    && (forall i | 0 < i < |tokens| :: tokens[i] != "")
    && (forall i | 0 <= i < |pages| ::
          reply(tokens[i]).Failed? || reply(tokens[i]) == Page(pages[i], NextToken(tokens, i)))
  }

  function NextToken(tokens: seq<string>, i: nat): string {
    if i + 1 < |tokens| then tokens[i + 1] else ""
  }

  lemma FlattenNext<T>(pages: seq<seq<T>>, i: nat)
    requires i < |pages|
    ensures Flatten(pages[..i + 1]) == Flatten(pages[..i]) + pages[i]
  {
    assert pages[..i + 1][..i] == pages[..i];
  }

  /**
  listAllRemoteTraces and the first half of listAllRemoteTargets: all rows in order, unless a
  request of the walk fails.
  */
  method ListAll<T(!new)>(reply: string -> Reply<T>, ghost pages: seq<seq<T>>, ghost tokens: seq<string>)
    returns (rows: Option<seq<T>>)
    requires Serves(pages, tokens, reply)
    ensures rows.Some? ==> rows.value == Flatten(pages)
    ensures rows.None? <==> exists i | 0 <= i < |tokens| :: reply(tokens[i]).Failed?
  {
    var got: seq<T> := [];
    var token := "";
    ghost var i := 0;
    while true
      invariant 0 <= i < |pages| && token == tokens[i] && got == Flatten(pages[..i])
      invariant forall k | 0 <= k < i :: reply(tokens[k]).Page?
      decreases |pages| - i
    {
      var page := reply(token);
      if page.Failed? {
        return None;
      }
      FlattenNext(pages, i);
      got := got + page.rows;
      if page.next == "" {
        assert pages[..i + 1] == pages;
        return Some(got);
      }
      token := page.next;
      i := i + 1;
    }
  }

  function Filter(ts: seq<Target>, status: string): seq<Target> {
    if ts == [] then []
    else Filter(ts[..|ts| - 1], status)
         + if ts[|ts| - 1].status == status then [ts[|ts| - 1]] else []
  }

  lemma FilterNext(ts: seq<Target>, i: nat, status: string)
    requires i < |ts|
    ensures Filter(ts[..i + 1], status) == Filter(ts[..i], status) + if ts[i].status == status then [ts[i]] else []
  {
    assert ts[..i + 1][..i] == ts[..i];
  }

  /**
  `filtered := targets[:0]`, then appending to it while ranging over `targets`: both share one
  array. The kept rows land in front, in order; nothing is read after it was overwritten.
  */
  method Compact(a: array<Target>, status: string) returns (n: nat)
    modifies a
    ensures n <= a.Length && a[..n] == Filter(old(a[..]), status)
    ensures forall k | n <= k < a.Length :: a[k] in old(a[..])
  {
    ghost var was := a[..];
    n := 0;
    for i := 0 to a.Length
      invariant n <= i && a[..n] == Filter(was[..i], status)
      invariant forall k | i <= k < a.Length :: a[k] == was[k]
      invariant forall k | 0 <= k < a.Length :: a[k] in was
    {
      var t := a[i];
      FilterNext(was, i, status);
      if t.status == status {
        ghost var kept := a[..n];
        a[n] := t;
        assert a[..n + 1] == kept + [t];
        n := n + 1;
      }
    }
    assert was[..a.Length] == was;
  }

  /** listAllRemoteTargets: the whole listing, or its rows with the wanted status, in order. */
  method ListTargets(reply: string -> Reply<Target>, status: string,
                     ghost pages: seq<seq<Target>>, ghost tokens: seq<string>)
    returns (rows: Option<seq<Target>>)
    requires Serves(pages, tokens, reply)
    ensures rows.Some? ==> rows.value == if status == "" then Flatten(pages) else Filter(Flatten(pages), status)
    ensures rows.None? <==> exists i | 0 <= i < |tokens| :: reply(tokens[i]).Failed?
  {
    rows := ListAll(reply, pages, tokens);
    if rows.Some? && status != "" {
      var ts := rows.value;
      var a := new Target[|ts|](i requires 0 <= i < |ts| => ts[i]);
      assert a[..] == ts;
      var n := Compact(a, status);
      rows := Some(a[..n]);
    }
  }

  ghost predicate IsOneOf(picks: seq<nat>, k: nat) {
    exists x {:trigger picks[x]} | 0 <= x < |picks| :: picks[x] == k
  }

  /** `picks` are the positions of the matching rows, in order, and `out` the rows there. */
  ghost predicate IsSelection(ts: seq<Target>, status: string, picks: seq<nat>, out: seq<Target>) {
    && |picks| == |out|
    && (forall x | 0 <= x < |picks| :: picks[x] < |ts| && out[x] == ts[picks[x]])
    && (forall x, y | 0 <= x < y < |picks| :: picks[x] < picks[y])
    && (forall k: nat | k < |ts| :: IsOneOf(picks, k) <==> ts[k].status == status)
  }

  /** Filter keeps exactly the matching rows, each once and in order. */
  lemma {:induction false} FilterExactly(ts: seq<Target>, status: string) returns (picks: seq<nat>)
    ensures IsSelection(ts, status, picks, Filter(ts, status))
    decreases |ts|
  {
    picks := [];
    if ts != [] {
      var init, t := ts[..|ts| - 1], ts[|ts| - 1];
      picks := FilterExactly(init, status);
      assert ts == init + [t];
      SelectionGrows(init, t, status, picks, Filter(init, status));
      if t.status == status {
        picks := picks + [|init|];
      }
    }
  }

  lemma SelectionGrows(ts: seq<Target>, t: Target, status: string, picks: seq<nat>, out: seq<Target>)
    requires IsSelection(ts, status, picks, out)
    ensures t.status != status ==> IsSelection(ts + [t], status, picks, out)
    ensures t.status == status ==> IsSelection(ts + [t], status, picks + [|ts|], out + [t])
  {
    var n, take := |ts|, t.status == status;
    var more := if take then picks + [n] else picks;
    forall k: nat | k < n + 1 ensures IsOneOf(more, k) <==> (ts + [t])[k].status == status {
      PickedNext(picks, n, k, take);
    }
  }

  lemma PickedNext(before: seq<nat>, n: nat, k: nat, take: bool)
    requires forall x | 0 <= x < |before| :: before[x] < n
    ensures IsOneOf(if take then before + [n] else before, k) <==> IsOneOf(before, k) || (take && k == n)
    ensures k >= n ==> !IsOneOf(before, k)
  {
    if take {
      var after := before + [n];
      assert after[|before|] == n && forall x | 0 <= x < |before| :: after[x] == before[x];
    }
  }
}
