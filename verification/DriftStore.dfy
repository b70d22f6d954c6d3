/**
The file operations behind `levee drift`: reading, writing and reconciling the baselines
directory. `history` records every directory state that an operation passes through, the
half-written ones included, so that the contracts say where a crash can leave the directory.
*/
module DriftStore {
  import opened Wrappers
  import opened Text
  import opened DriftBaselines

  datatype SaveResult = Saved | Collision(first: Key, second: Key) | InvalidName(stem: string) | IOError

  /** A point of a save: between two file operations, or in the middle of a write. */
  ghost predicate Passes(d0: Dir, desired: Desired, d: Dir) {
    SavePoint(d0, desired, d) || exists done, stem, n :: TornPoint(d0, desired, done, stem, n, d)
  }

  /** The stale files among the first n listed names. */
  ghost function Gone(full: Dir, desired: Desired, names: seq<string>, n: nat): set<string>
    requires n <= |names|
  {
    set f | f in names[..n] && Stale(full, desired, f)
  }

  lemma GoneNext(full: Dir, desired: Desired, names: seq<string>, n: nat)
    requires n < |names|
    ensures Gone(full, desired, names, n + 1) ==
            Gone(full, desired, names, n) + if Stale(full, desired, names[n]) then {names[n]} else {}
  {
    assert names[..n + 1] == names[..n] + [names[n]];
  }

  /** They are closed under going back in the listing. */
  lemma RemovedSoFar(d0: Dir, desired: Desired, full: Dir, names: seq<string>, n: nat)
    requires WritePoint(d0, desired, desired.Keys, full) && IsListing(full, names) && n <= |names|
    ensures var gone := Gone(full, desired, names, n);
            SavePoint(d0, desired, full - gone)
  {
    var gone := Gone(full, desired, names, n);
    forall a, b | Stale(full, desired, a) && b in gone && LexLess(a, b) ensures a in gone {
      var x :| 0 <= x < |names| && names[x] == a;
      var y :| 0 <= y < n && names[y] == b;
      LexAsymmetric(a, b);
      assert x < y;
      assert names[..n][x] == a;
    }
    assert RemovePoint(d0, desired, full, gone, full - gone);
  }

  lemma RemoveNext(d0: Dir, desired: Desired, full: Dir, names: seq<string>, i: nat) returns (next: Dir)
    requires WritePoint(d0, desired, desired.Keys, full) && IsListing(full, names) && i < |names|
    ensures next == full - Gone(full, desired, names, i + 1) && Passes(d0, desired, next)
    ensures next == if Stale(full, desired, names[i]) then (full - Gone(full, desired, names, i)) - {names[i]}
                    else full - Gone(full, desired, names, i)
  {
    next := full - Gone(full, desired, names, i + 1);
    RemovedSoFar(d0, desired, full, names, i + 1);
    GoneNext(full, desired, names, i);
  }

  lemma AllRemoved(d0: Dir, desired: Desired, full: Dir, names: seq<string>)
    requires WritePoint(d0, desired, desired.Keys, full) && IsListing(full, names)
    ensures Completed(d0, desired, full - Gone(full, desired, names, |names|))
  {
    assert names[..|names|] == names;
  }

  /** os.ReadDir: the names in byte order. */
  method SortNames(keys: set<string>) returns (names: seq<string>)
    ensures forall n :: n in names <==> n in keys
    ensures forall i, j | 0 <= i < j < |names| :: LexLess(names[i], names[j])
  {
    names := [];
    var todo := keys;
    while todo != {}
      invariant todo <= keys
      invariant forall n :: n in names <==> n in keys - todo
      invariant forall i, j | 0 <= i < j < |names| :: LexLess(names[i], names[j])
    {
      var x :| x in todo;
      names := Insert(names, x);
      todo := todo - {x};
    }
  }

  method Insert(names: seq<string>, x: string) returns (more: seq<string>)
    requires x !in names
    requires forall i, j | 0 <= i < j < |names| :: LexLess(names[i], names[j])
    ensures forall n :: n in more <==> n in names || n == x
    ensures forall i, j | 0 <= i < j < |more| :: LexLess(more[i], more[j])
  {
    var p := 0;
    while p < |names| && LexLess(names[p], x)
      invariant 0 <= p <= |names|
      invariant forall i | 0 <= i < p :: LexLess(names[i], x)
    {
      p := p + 1;
    }
    if p < |names| {
      LexTotal(names[p], x);
      assert LexLess(x, names[p]);
      forall j | p < j < |names| ensures LexLess(x, names[j]) {
        LexTransitive(x, names[p], names[j]);
      }
    }
    more := names[..p] + [x] + names[p..];
    assert names == names[..p] + names[p..];
  }

  class Directory {
    var entries: Dir
    /** Every directory state that was ever on disk, the current one included. */
    ghost var passed: set<Dir>

    ghost predicate Valid()
      reads this
    {
      entries in passed
    }

    /** os.WriteFile: open with truncation, then write; either can fail, the write half way. */
    method WriteFile(file: string, data: string) returns (ok: bool)
      requires Valid()
      modifies this
      ensures Valid() && old(passed) <= passed
      ensures ok ==> entries == old(entries)[file := File(data)]
      ensures file in old(entries) && old(entries)[file].SubDir? ==> !ok && entries == old(entries)
      ensures forall d | d in passed ::
                d in old(passed) || exists n | 0 <= n <= |data| :: d == old(entries)[file := File(data[..n])]
    {
      var openFails: bool := *;
      if openFails || (file in entries && entries[file].SubDir?) {
        return false;
      }
      var n: nat := 0;
      entries := entries[file := File(data[..n])];
      passed := passed + {entries};
      while n < |data|
        invariant n <= |data|
        invariant entries == old(entries)[file := File(data[..n])]
        invariant Valid() && old(passed) <= passed
        invariant forall d | d in passed ::
                    d in old(passed) || exists k | 0 <= k <= |data| :: d == old(entries)[file := File(data[..k])]
      {
        var writeFails: bool := *;
        if writeFails {
          return false;
        }
        n := n + 1;
        entries := entries[file := File(data[..n])];
        passed := passed + {entries};
      }
      assert data[..n] == data;
      ok := true;
    }

    method Remove(file: string) returns (ok: bool)
      requires Valid()
      modifies this
      ensures Valid()
      ensures entries == if ok then old(entries) - {file} else old(entries)
      ensures passed == old(passed) + {entries}
    {
      ok := *;
      if ok {
        entries := entries - {file};
      }
      passed := passed + {entries};
    }

    method WriteOne(desired: Desired, ghost d0: Dir, ghost done: set<string>, stem: string) returns (ok: bool)
      requires Valid() && stem in desired && WritePoint(d0, desired, done, entries)
      modifies this
      ensures Valid() && old(passed) <= passed
      ensures forall d | d in passed :: d in old(passed) || Passes(d0, desired, d)
      ensures ok ==> WritePoint(d0, desired, done + {stem}, entries)
    {
      ghost var before := entries;
      ok := WriteFile(FileName(stem), desired[stem]);
      forall d | d in passed && d !in old(passed) ensures Passes(d0, desired, d) {
        var n :| 0 <= n <= |desired[stem]| && d == before[FileName(stem) := File(desired[stem][..n])];
        assert TornPoint(d0, desired, done, stem, n, d);
      }
      WriteExtends(d0, desired, done, before, stem);
    }

    method RemoveIfStale(desired: Desired, full: Dir, names: seq<string>, i: nat, ghost d0: Dir) returns (ok: bool)
      requires Valid() && i < |names| && IsListing(full, names)
      requires WritePoint(d0, desired, desired.Keys, full)
      requires entries == full - Gone(full, desired, names, i)
      modifies this
      ensures Valid() && old(passed) <= passed
      ensures forall d | d in passed :: d in old(passed) || Passes(d0, desired, d)
      ensures ok ==> entries == full - Gone(full, desired, names, i + 1)
    {
      ghost var next := RemoveNext(d0, desired, full, names, i);
      ok := true;
      if Stale(full, desired, names[i]) {
        ok := Remove(names[i]);
      }
    }

    method RemoveStale(desired: Desired, ghost d0: Dir) returns (r: SaveResult)
      requires Valid() && WritePoint(d0, desired, desired.Keys, entries)
      modifies this
      ensures Valid() && old(passed) <= passed
      ensures r == Saved || r == IOError
      ensures forall d | d in passed :: d in old(passed) || Passes(d0, desired, d)
      ensures r == Saved ==> Completed(d0, desired, entries)
    {
      var listFails: bool := *;
      if listFails {
        return IOError;
      }
      var full := entries;
      var names := SortNames(full.Keys);
      var i := 0;
      assert entries == full - Gone(full, desired, names, 0);
      while i < |names|
        invariant 0 <= i <= |names|
        invariant entries == full - Gone(full, desired, names, i)
        invariant Valid() && old(passed) <= passed
        invariant forall d | d in passed :: d in old(passed) || Passes(d0, desired, d)
      {
        var ok := RemoveIfStale(desired, full, names, i, d0);
        if !ok {
          return IOError;
        }
        i := i + 1;
      }
      AllRemoved(d0, desired, full, names);
      r := Saved;
    }

    /** syncJSONDir: write every wanted file in some order, then remove the stale ones as listed. */
    method SyncJSONDir(desired: Desired) returns (r: SaveResult)
      requires Valid()
      modifies this
      ensures Valid() && old(passed) <= passed
      ensures !r.Collision?
      ensures forall d | d in passed :: d in old(passed) || Passes(old(entries), desired, d)
      ensures r == Saved ==> Completed(old(entries), desired, entries)
      ensures r.InvalidName? ==> r.stem in desired && !ValidEntryName(r.stem)
      ensures r == Saved ==>
                forall stem | stem in desired ::
                  stem != "" && stem != "." && stem != ".." && '/' !in stem && '\\' !in stem
    {
      var todo := desired.Keys;
      while todo != {}
        invariant todo <= desired.Keys
        invariant forall stem | stem in desired.Keys - todo :: ValidEntryName(stem)
        invariant WritePoint(old(entries), desired, desired.Keys - todo, entries)
        invariant Valid() && old(passed) <= passed
        invariant forall d | d in passed :: d in old(passed) || Passes(old(entries), desired, d)
      {
        var stem :| stem in todo;
        if !ValidEntryName(stem) {
          return InvalidName(stem);
        }
        var ok := WriteOne(desired, old(entries), desired.Keys - todo, stem);
        if !ok {
          return IOError;
        }
        assert desired.Keys - (todo - {stem}) == desired.Keys - todo + {stem};
        todo := todo - {stem};
      }
      assert desired.Keys - todo == desired.Keys;
      r := RemoveStale(desired, old(entries));
    }
  }

  /**
  saveBaselinesToDisk. The listing of the manager is walked in some order. Two baselines with one
  stem refuse the save before any file operation; otherwise the directory is reconciled with the
  encoded records, and `desired` says which those are.
  */
  method SaveBaselines(dir: Directory, rd: Reader, m: Manager) returns (r: SaveResult, ghost desired: Desired)
    requires dir.Valid()
    modifies dir
    ensures dir.Valid() && old(dir.passed) <= dir.passed
    ensures r.Collision? <==> !StemsDistinct(m)
    ensures r.Collision? ==>
              && dir.entries == old(dir.entries) && dir.passed == old(dir.passed)
              && r.first in m && r.second in m && r.first != r.second
              && FileStem(r.first) == FileStem(r.second)
    ensures !r.Collision? ==> Mirrors(rd, m, desired)
    ensures forall d | d in dir.passed :: d in old(dir.passed) || Passes(old(dir.entries), desired, d)
    ensures r == Saved ==> Completed(old(dir.entries), desired, dir.entries)
    ensures WellFormed(m) ==> !r.InvalidName?
  {
    var owner: map<string, Key> := map[];
    var blobs: Desired := map[];
    desired := blobs;
    var todo := m.Keys;
    while todo != {}
      invariant todo <= m.Keys
      invariant dir.entries == old(dir.entries) && dir.passed == old(dir.passed)
      invariant owner.Keys == blobs.Keys
      invariant forall stem | stem in owner ::
                  owner[stem] in m && owner[stem] !in todo && FileStem(owner[stem]) == stem
      invariant forall k | k in m && k !in todo ::
                  && FileStem(k) in owner && owner[FileStem(k)] == k
                  && blobs[FileStem(k)] == rd.encode(m[k])
    {
      var k :| k in todo;
      var stem := FileStem(k);
      if stem in owner {
        return Collision(owner[stem], k), desired;
      }
      owner := owner[stem := k];
      blobs := blobs[stem := rd.encode(m[k])];
      todo := todo - {k};
    }
    desired := blobs;
    r := dir.SyncJSONDir(blobs);
    if WellFormed(m) && r.InvalidName? {
      var k := owner[r.stem];
      StemsAreValid(m, k);
    }
  }

  /** loadBaselinesFromDisk: entries in listing order, the last record for a key stays. */
  method LoadBaselines(dir: Directory, rd: Reader) returns (m: Manager)
    ensures exists names :: IsListing(dir.entries, names) && m == LoadNames(rd, dir.entries, names)
    ensures forall k :: k !in m <==> Absent(rd, dir.entries, k)
    ensures forall k | k in m :: LoadsAs(rd, dir.entries, k, m[k])
  {
    var listed := SortNames(dir.entries.Keys);
    m := map[];
    var i := 0;
    while i < |listed|
      invariant 0 <= i <= |listed|
      invariant m == LoadNames(rd, dir.entries, listed[..i])
    {
      assert listed[..i + 1][..i] == listed[..i];
      var claim := Contribution(rd, dir.entries, listed[i]);
      if claim.Some? {
        m := m[claim.value.key := claim.value.baseline];
      }
      i := i + 1;
    }
    assert listed[..i] == listed;
    forall k ensures k !in m <==> Absent(rd, dir.entries, k)
             ensures k in m ==> LoadsAs(rd, dir.entries, k, m[k])
    {
      LoadMeaning(rd, dir.entries, listed, k);
    }
  }

  /** A save that reports success, followed by a load, gives back exactly what was saved. */
  method SaveAndLoad(dir: Directory, rd: Reader, m: Manager) returns (r: SaveResult, l: Manager)
    requires dir.Valid() && Faithful(rd) && WellFormed(m) && OwnFilesReadable(rd, m)
    modifies dir
    ensures r == Saved ==> l == m
  {
    ghost var d0 := dir.entries;
    ghost var desired;
    r, desired := SaveBaselines(dir, rd, m);
    l := LoadBaselines(dir, rd);
    if r == Saved {
      ghost var names :| IsListing(dir.entries, names) && l == LoadNames(rd, dir.entries, names);
      SaveThenLoad(rd, m, desired, d0, dir.entries, names);
    }
  }
}
