/**
Drift baselines and the directory that mirrors them: one JSON file per (host, name), through a
file-name mapping that is not injective.

The first half is the meaning of a directory: what loading it gives, and which file wins when
several claim the same baseline.  The second half is about the directories that a save passes
through, so that a crash at any point can be judged by what the next load would see.
*/
module DriftBaselines {
  import opened Wrappers
  import opened Text

  const DEFAULT_NAME := "default"

  datatype Item = Item(check: string, kind: string, path: string, expected: string)

  /** `created` is zero for the zero time. */
  datatype Baseline = Baseline(
    id: string, host: string, name: string, sourceRun: string, created: nat, items: seq<Item>)

  datatype Key = Key(host: string, name: string)

  type Manager = map<Key, Baseline>

  // ----- normalisation (BaselineManager.Set)

  predicate NoSeparator(s: string) {
    '/' !in s && '\\' !in s
  }

  predicate NameChar(c: char) {
    'a' <= c <= 'z' || '0' <= c <= '9' || c == '.' || c == '_' || c == '-'
  }

  /** ^[a-z0-9][a-z0-9._-]{0,63}$ */
  predicate ValidName(s: string) {
    && 1 <= |s| <= 64
    && ('a' <= s[0] <= 'z' || '0' <= s[0] <= '9')
    && forall i | 0 <= i < |s| :: NameChar(s[i])
  }

  function NormalizeHost(host: string): Option<string> {
    var t := Trim(host);
    if t == "" || !NoSeparator(t) || t == "." || t == ".." then None else Some(t)
  }

  function NormalizeName(name: string): Option<string> {
    var t := Trim(name);
    if t == "" then Some(DEFAULT_NAME) else if ValidName(t) then Some(t) else None
  }

  /** What Set would mint: a fresh id unless the random source fails, and the time. */
  datatype Mint = Mint(id: Option<string>, now: nat)

  datatype Claim = Claim(key: Key, baseline: Baseline)

  /** BaselineManager.Set: the key and the record it stores, or None when it refuses. */
  function Accept(b: Baseline, mint: Mint): Option<Claim> {
    var host, name := NormalizeHost(b.host), NormalizeName(b.name);
    if host.None? || name.None? || b.items == [] || (b.id == "" && mint.id.None?) then None
    else
      var id := if b.id == "" then mint.id.value else b.id;
      var created := if b.created == 0 then mint.now else b.created;
      Some(Claim(Key(host.value, name.value),
                 b.(host := host.value, name := name.value, id := id, created := created)))
  }

  /** Every record is stored under its own normalised key: what Set keeps true. */
  ghost predicate WellFormed(m: Manager) {
    forall k | k in m ::
      && m[k].host == k.host && m[k].name == k.name
      && NormalizeHost(k.host) == Some(k.host) && NormalizeName(k.name) == Some(k.name)
      && m[k].items != [] && m[k].id != "" && m[k].created != 0
  }

  lemma AcceptStored(m: Manager, k: Key, mint: Mint)
    requires WellFormed(m) && k in m
    ensures Accept(m[k], mint) == Some(Claim(k, m[k]))
  {
  }

  /** Storing one more accepted record keeps the manager well formed. */
  lemma AcceptKeepsWellFormed(m: Manager, b: Baseline, mint: Mint)
    requires WellFormed(m) && Accept(b, mint).Some?
    requires mint.id != Some("") && mint.now != 0
    ensures var c := Accept(b, mint).value; WellFormed(m[c.key := c.baseline])
  {
    TrimIsTrimmed(b.host);
    TrimIsTrimmed(b.name);
    TrimIsTrimmed(Trim(b.host));
    TrimIsTrimmed(Trim(b.name));
    TrimIsTrimmed(DEFAULT_NAME);
    assert ValidName(DEFAULT_NAME);
  }

  /**
  What Set accepts and what it stores, in terms of the record: a host that is a plain file name, no
  name or one that fits the pattern, some items, and an id or a minted one. Nothing else changes.
  */
  lemma AcceptExactly(b: Baseline, mint: Mint)
    ensures var host, name := Trim(b.host), Trim(b.name);
            Accept(b, mint).Some? <==>
              && host != "" && '/' !in host && '\\' !in host && host != "." && host != ".."
              && (name == ""
                  || (&& |name| <= 64 && ('a' <= name[0] <= 'z' || '0' <= name[0] <= '9')
                      && forall i | 0 <= i < |name| ::
                           'a' <= name[i] <= 'z' || '0' <= name[i] <= '9' || name[i] in "._-"))
              && b.items != [] && (b.id != "" || mint.id.Some?)
    ensures Accept(b, mint).Some? ==>
              var c := Accept(b, mint).value;
              && c.key == Key(Trim(b.host), if Trim(b.name) == "" then "default" else Trim(b.name))
              && c.baseline == Baseline(if b.id != "" then b.id else mint.id.value, c.key.host, c.key.name, b.sourceRun,
                                        if b.created != 0 then b.created else mint.now, b.items)
  {
  }

  // ----- file names

  const JSON := ".json"

  function FileStem(k: Key): string {
    if k.name == DEFAULT_NAME then k.host else k.host + "." + k.name
  }

  predicate IsJson(file: string) {
    HasSuffix(file, JSON)
  }

  function StemOf(file: string): string
    requires IsJson(file)
  {
    file[..|file| - |JSON|]
  }

  function FileName(stem: string): (file: string)
    ensures IsJson(file) && StemOf(file) == stem
  {
    stem + JSON
  }

  lemma FileNameOfStem(file: string)
    requires IsJson(file)
    ensures FileName(StemOf(file)) == file
  {
  }

  predicate ValidEntryName(stem: string) {
    stem != "" && stem != "." && stem != ".." && NoSeparator(stem)
  }

  /** The check inside syncJSONDir never refuses a stem of a well-formed manager. */
  lemma StemsAreValid(m: Manager, k: Key)
    requires WellFormed(m) && k in m
    ensures ValidEntryName(FileStem(k))
  {
    TrimIsTrimmed(k.host);
    TrimIsTrimmed(k.name);
    if k.name != DEFAULT_NAME {
      var stem := FileStem(k);
      assert k.name != "";
      assert ValidName(k.name);
      assert NoSeparator(k.name) by {
        forall i | 0 <= i < |k.name| ensures k.name[i] != '/' && k.name[i] != '\\' {
          assert NameChar(k.name[i]);
        }
      }
      assert |stem| >= 3;
    }
  }

  ghost predicate StemsDistinct(m: Manager) {
    forall j, k | j in m && k in m && FileStem(j) == FileStem(k) :: j == k
  }

  /** The default version of one host is named like a version of the other: web-01.prod and web-01/prod. */
  predicate HostReadsAsVersion(j: Key, k: Key) {
    j.name == DEFAULT_NAME && k.name != DEFAULT_NAME && j.host == k.host + ("." + k.name)
  }

  /** Two named versions: k's host is j's with a part more, which j has in front of its name instead. */
  ghost predicate PartMoves(j: Key, k: Key) {
    && j.name != DEFAULT_NAME && k.name != DEFAULT_NAME
    && exists m: string :: k.host == j.host + ("." + m) && j.name == m + ("." + k.name)
  }

  /** Two different keys share a stem exactly when a dotted part can be read as host or as version. */
  lemma StemsCollideExactly(j: Key, k: Key)
    requires j != k
    ensures FileStem(j) == FileStem(k) <==>
            HostReadsAsVersion(j, k) || HostReadsAsVersion(k, j) || PartMoves(j, k) || PartMoves(k, j)
  {
    StemReads(j);
    StemReads(k);
    if j.name != DEFAULT_NAME && k.name != DEFAULT_NAME {
      DottedExactly(j.host, j.name, k.host, k.name);
      DottedExactly(k.host, k.name, j.host, j.name);
    }
  }

  /** Two dotted readings of one text, the first with the shorter host. */
  lemma DottedExactly(a: string, x: string, b: string, y: string)
    ensures a + ("." + x) == b + ("." + y) && |a| < |b| ==>
              exists m: string :: b == a + ("." + m) && x == m + ("." + y)
    ensures (exists m: string :: b == a + ("." + m) && x == m + ("." + y)) ==> a + ("." + x) == b + ("." + y)
    ensures a + ("." + x) == b + ("." + y) && |a| == |b| ==> a == b && x == y
  {
    if a + ("." + x) == b + ("." + y) && |a| <= |b| {
      DottedSplits(a, x, b, y);
    }
    if m: string :| b == a + ("." + m) && x == m + ("." + y) {
      assert a + ("." + x) == a + ("." + (m + ("." + y))) == a + ("." + m) + ("." + y);
    }
  }

  lemma DottedSplits(a: string, x: string, b: string, y: string)
    requires a + ("." + x) == b + ("." + y) && |a| <= |b|
    ensures |a| == |b| ==> a == b && x == y
    ensures |a| < |b| ==> b == a + ("." + b[|a| + 1..]) && x == b[|a| + 1..] + ("." + y)
  {
    var s := a + ("." + x);
    assert s[..|a|] == a && s[|a| + 1..] == x;
    assert s[..|b|] == b && s[|b| + 1..] == y && s[|b|..] == "." + y;
    if |a| < |b| {
      assert b[..|a|] == a && b[|a|] == s[|a|] == '.';
      assert b == b[..|a|] + ([b[|a|]] + b[|a| + 1..]);
      assert x == s[|a| + 1..|b|] + s[|b|..] && s[|a| + 1..|b|] == b[|a| + 1..];
    }
  }

  lemma StemReads(k: Key)
    ensures FileStem(k) == if k.name == DEFAULT_NAME then k.host else k.host + ("." + k.name)
  {
  }

  // ----- directories and loading

  datatype Entry = File(content: string) | SubDir

  type Dir = map<string, Entry>

  /** The JSON codec, and what ReadFile and Set draw from outside. */
  datatype Reader = Reader(
    encode: Baseline -> string, decode: string -> Option<Baseline>,
    mints: string -> Mint, unreadable: set<string>)

  /** Decoding inverts encoding. */
  ghost predicate Faithful(rd: Reader) {
    forall b {:trigger rd.encode(b)} :: rd.decode(rd.encode(b)) == Some(b)
  }

  /** No proper prefix of an encoded object is a whole object. */
  ghost predicate PrefixFree(rd: Reader) {
    forall b, n {:trigger rd.encode(b)[..n]} | 0 <= n < |rd.encode(b)| :: rd.decode(rd.encode(b)[..n]) == None
  }

  /** What one directory entry contributes to a load. */
  function Contribution(rd: Reader, d: Dir, file: string): Option<Claim> {
    if file !in d || d[file].SubDir? || !IsJson(file) || file in rd.unreadable then None
    else
      var b := rd.decode(d[file].content);
      if b.None? then None else Accept(b.value, rd.mints(file))
  }

  /** ReadDir: all entries, in strictly ascending byte order. */
  ghost predicate IsListing(d: Dir, names: seq<string>) {
    && (forall n :: n in names <==> n in d)
    && (forall i, j | 0 <= i < j < |names| :: LexLess(names[i], names[j]))
  }

  function LoadNames(rd: Reader, d: Dir, names: seq<string>): Manager {
    if names == [] then map[]
    else
      var before := LoadNames(rd, d, names[..|names| - 1]);
      match Contribution(rd, d, names[|names| - 1])
      case None => before
      case Some(c) => before[c.key := c.baseline]
  }

  ghost predicate Claims(rd: Reader, d: Dir, file: string, k: Key) {
    Contribution(rd, d, file).Some? && Contribution(rd, d, file).value.key == k
  }

  /** The lexically last claimant of k. */
  ghost predicate Wins(rd: Reader, d: Dir, file: string, k: Key) {
    && Claims(rd, d, file, k)
    && forall other | Claims(rd, d, other, k) :: other == file || LexLess(other, file)
  }

  ghost predicate LoadsAs(rd: Reader, d: Dir, k: Key, b: Baseline) {
    exists w :: Wins(rd, d, w, k) && Contribution(rd, d, w).value.baseline == b
  }

  /** Which entries a load looks at. */
  lemma ContributionExactly(rd: Reader, d: Dir, file: string, c: Claim)
    ensures Contribution(rd, d, file) == Some(c) <==>
            && file in d && d[file].File? && 5 <= |file| && file[|file| - 5..] == ".json" && file !in rd.unreadable
            && rd.decode(d[file].content).Some?
            && Accept(rd.decode(d[file].content).value, rd.mints(file)) == Some(c)
  {
  }

  /** A file written before versions had names, with no name field, loads as the host's default version. */
  lemma UnnamedLoadsAsDefault(rd: Reader, d: Dir, names: seq<string>, file: string, b: Baseline)
    requires IsListing(d, names) && file in d && d[file] == File(rd.encode(b)) && Faithful(rd)
    requires 5 <= |file| && file[|file| - 5..] == ".json" && file !in rd.unreadable
    requires b.name == "" && b.id != "" && b.items != []
    requires Trim(b.host) == b.host != "" && '/' !in b.host && '\\' !in b.host && b.host != "." && b.host != ".."
    ensures var k := Key(b.host, "default");
            && Claims(rd, d, file, k) && Contribution(rd, d, file).value.baseline.items == b.items
            && k in LoadNames(rd, d, names)
            && (Wins(rd, d, file, k) ==> LoadNames(rd, d, names)[k].items == b.items)
  {
    var k := Key(b.host, "default");
    assert rd.decode(rd.encode(b)) == Some(b);
    assert Trim("") == "";
    AcceptExactly(b, rd.mints(file));
    assert Claims(rd, d, file, k);
    LoadMeaning(rd, d, names, k);
    if Wins(rd, d, file, k) {
      assert LoadsAs(rd, d, k, Contribution(rd, d, file).value.baseline);
    }
  }

  ghost predicate Absent(rd: Reader, d: Dir, k: Key) {
    forall w :: !Claims(rd, d, w, k)
  }

  /** Position i is the last claimant of k among the names, and b is its record. */
  ghost predicate LastClaimant(rd: Reader, d: Dir, names: seq<string>, k: Key, i: nat, b: Baseline) {
    && i < |names| && Claims(rd, d, names[i], k) && Contribution(rd, d, names[i]).value.baseline == b
    && forall j | i < j < |names| :: !Claims(rd, d, names[j], k)
  }

  lemma LastClaimantGrows(rd: Reader, d: Dir, names: seq<string>, last: string, k: Key, i: nat, b: Baseline)
    requires LastClaimant(rd, d, names, k, i, b) && !Claims(rd, d, last, k)
    ensures LastClaimant(rd, d, names + [last], k, i, b)
  {
    var more := names + [last];
    assert more[i] == names[i];
    assert forall j | 0 <= j < |names| :: more[j] == names[j];
  }

  lemma NewLastClaimant(rd: Reader, d: Dir, names: seq<string>, last: string, k: Key)
    requires Claims(rd, d, last, k)
    ensures LastClaimant(rd, d, names + [last], k, |names|, Contribution(rd, d, last).value.baseline)
  {
    assert (names + [last])[|names|] == last;
  }

  /** A load of the names so far holds, for each claimed key, the record of the last claimant. */
  lemma {:induction false} LoadNamesLast(rd: Reader, d: Dir, names: seq<string>, k: Key)
    ensures k in LoadNames(rd, d, names) <==> exists w :: w in names && Claims(rd, d, w, k)
    ensures k in LoadNames(rd, d, names) ==>
              exists i: nat :: LastClaimant(rd, d, names, k, i, LoadNames(rd, d, names)[k])
  {
    if names != [] {
      var init, last := names[..|names| - 1], names[|names| - 1];
      LoadNamesLast(rd, d, init, k);
      assert names == init + [last];
      if Claims(rd, d, last, k) {
        NewLastClaimant(rd, d, init, last, k);
      } else if k in LoadNames(rd, d, init) {
        var i: nat :| LastClaimant(rd, d, init, k, i, LoadNames(rd, d, init)[k]);
        LastClaimantGrows(rd, d, init, last, k, i, LoadNames(rd, d, init)[k]);
      }
    }
  }

  /** Loading a listed directory: absent when nobody claims the key, else the winner's record. */
  lemma LoadMeaning(rd: Reader, d: Dir, names: seq<string>, k: Key)
    requires IsListing(d, names)
    ensures k !in LoadNames(rd, d, names) <==> Absent(rd, d, k)
    ensures forall b :: k in LoadNames(rd, d, names) && LoadNames(rd, d, names)[k] == b <==> LoadsAs(rd, d, k, b)
  {
    LoadNamesLast(rd, d, names, k);
    if k in LoadNames(rd, d, names) {
      var i: nat :| LastClaimant(rd, d, names, k, i, LoadNames(rd, d, names)[k]);
      forall other | Claims(rd, d, other, k)
        ensures other == names[i] || LexLess(other, names[i])
      {
        assert other in names;
      }
      assert Wins(rd, d, names[i], k);
      forall w | Wins(rd, d, w, k) ensures w == names[i] {
        WinnerIsUnique(rd, d, w, names[i], k);
      }
    }
  }

  lemma WinnerIsUnique(rd: Reader, d: Dir, v: string, w: string, k: Key)
    requires Wins(rd, d, v, k) && Wins(rd, d, w, k)
    ensures v == w
  {
    if v != w {
      LexAsymmetric(v, w);
    }
  }

  // ----- the directories a save passes through

  type Desired = map<string, string>

  predicate WantedIn(stems: set<string>, file: string) {
    IsJson(file) && StemOf(file) in stems
  }

  /** A *.json file, in the directory, that the save does not keep. */
  predicate Stale(d: Dir, desired: Desired, file: string) {
    file in d && d[file].File? && IsJson(file) && !WantedIn(desired.Keys, file)
  }

  /** The files for the stems in `done` are written, nothing else has changed. */
  ghost predicate WritePoint(d0: Dir, desired: Desired, done: set<string>, d: Dir) {
    && done <= desired.Keys
    && (forall file :: file in d <==> file in d0 || WantedIn(done, file))
    && (forall file | file in d ::
          d[file] == if WantedIn(done, file) then File(desired[StemOf(file)]) else d0[file])
  }

  /** As before, and the file for one stem holds only the first n characters of its content. */
  ghost predicate TornPoint(d0: Dir, desired: Desired, done: set<string>, stem: string, n: nat, d: Dir) {
    && stem in desired && n <= |desired[stem]|
    && exists base :: WritePoint(d0, desired, done, base)
                      && d == base[FileName(stem) := File(desired[stem][..n])]
  }

  /** Everything is written, and stale files have been removed in lexical order. */
  ghost predicate RemovePoint(d0: Dir, desired: Desired, full: Dir, gone: set<string>, d: Dir) {
    && WritePoint(d0, desired, desired.Keys, full)
    && (forall file | file in gone :: Stale(full, desired, file))
    && (forall a, b | Stale(full, desired, a) && b in gone && LexLess(a, b) :: a in gone)
    && d == full - gone
  }

  /** A directory between two file operations of a save, none of them half done. */
  ghost predicate SavePoint(d0: Dir, desired: Desired, d: Dir) {
    || (exists done :: WritePoint(d0, desired, done, d))
    || (exists full, gone :: RemovePoint(d0, desired, full, gone, d))
  }

  /** The directory a completed save leaves: the wanted files, and what was never a *.json file. */
  ghost predicate Completed(d0: Dir, desired: Desired, d: Dir) {
    && (forall file :: file in d <==>
          WantedIn(desired.Keys, file) || (file in d0 && (d0[file].SubDir? || !IsJson(file))))
    && (forall file | file in d ::
          d[file] == if WantedIn(desired.Keys, file) then File(desired[StemOf(file)]) else d0[file])
  }

  /** `desired` holds the encoded record of every baseline of m under its stem. */
  ghost predicate Mirrors(rd: Reader, m: Manager, desired: Desired) {
    && (forall k | k in m :: FileStem(k) in desired && desired[FileStem(k)] == rd.encode(m[k]))
    && (forall stem | stem in desired :: exists k :: k in m && FileStem(k) == stem)
  }

  ghost predicate OwnFilesReadable(rd: Reader, m: Manager) {
    forall k | k in m :: FileName(FileStem(k)) !in rd.unreadable
  }

  /** All that the results below assume of a save and of later loads. */
  ghost predicate GoodSave(rd: Reader, m: Manager, desired: Desired) {
    Faithful(rd) && WellFormed(m) && StemsDistinct(m) && Mirrors(rd, m, desired) && OwnFilesReadable(rd, m)
  }

  lemma OwnFile(rd: Reader, m: Manager, desired: Desired, d: Dir, k: Key)
    requires GoodSave(rd, m, desired) && k in m
    requires var f := FileName(FileStem(k)); f in d && d[f] == File(desired[FileStem(k)])
    ensures Contribution(rd, d, FileName(FileStem(k))) == Some(Claim(k, m[k]))
  {
    AcceptStored(m, k, rd.mints(FileName(FileStem(k))));
    assert rd.decode(rd.encode(m[k])) == Some(m[k]);
  }

  /** Whoever claims k in a directory of the save is k's own written file, or claimed it before. */
  lemma ClaimantsAtWritePoint(rd: Reader, m: Manager, desired: Desired, d0: Dir, done: set<string>, d: Dir,
                              file: string, k: Key)
    requires GoodSave(rd, m, desired) && WritePoint(d0, desired, done, d)
    ensures WantedIn(done, file) ==>
              (Claims(rd, d, file, k) <==> k in m && file == FileName(FileStem(k)))
    ensures WantedIn(done, file) && Claims(rd, d, file, k) ==> Contribution(rd, d, file).value.baseline == m[k]
    ensures !WantedIn(done, file) ==> Contribution(rd, d, file) == Contribution(rd, d0, file)
  {
    if WantedIn(done, file) {
      var j :| j in m && FileStem(j) == StemOf(file);
      FileNameOfStem(file);
      OwnFile(rd, m, desired, d, j);
      if k in m && file == FileName(FileStem(k)) {
        assert FileStem(k) == FileStem(j);
      }
    }
  }

  // ----- a completed save and the next load agree

  lemma CompletedClaims(rd: Reader, m: Manager, desired: Desired, d0: Dir, d: Dir, file: string, k: Key)
    requires GoodSave(rd, m, desired) && Completed(d0, desired, d)
    ensures Claims(rd, d, file, k) <==> k in m && file == FileName(FileStem(k))
    ensures Claims(rd, d, file, k) ==> Contribution(rd, d, file).value.baseline == m[k]
  {
    if WantedIn(desired.Keys, file) {
      var j :| j in m && FileStem(j) == StemOf(file);
      FileNameOfStem(file);
      OwnFile(rd, m, desired, d, j);
      if k in m && file == FileName(FileStem(k)) {
        assert FileStem(k) == FileStem(j);
      }
    }
  }

  /** Save then load gives the manager back, whatever the directory held before. */
  lemma SaveThenLoad(rd: Reader, m: Manager, desired: Desired, d0: Dir, d: Dir, names: seq<string>)
    requires GoodSave(rd, m, desired) && Completed(d0, desired, d) && IsListing(d, names)
    ensures LoadNames(rd, d, names) == m
  {
    var l := LoadNames(rd, d, names);
    forall k ensures k in l <==> k in m ensures k in m ==> l[k] == m[k] {
      LoadMeaning(rd, d, names, k);
      var own := FileName(FileStem(k));
      forall file ensures Claims(rd, d, file, k) <==> k in m && file == own {
        CompletedClaims(rd, m, desired, d0, d, file, k);
      }
      if k in m {
        CompletedClaims(rd, m, desired, d0, d, own, k);
        assert Wins(rd, d, own, k);
        assert LoadsAs(rd, d, k, m[k]);
      }
    }
  }

  lemma RewriteChangesNothing(d0: Dir, desired: Desired, d: Dir, done: set<string>, e: Dir)
    requires Completed(d0, desired, d) && WritePoint(d, desired, done, e)
    ensures e == d
  {
    assert e.Keys == d.Keys;
  }

  lemma NothingIsStale(d0: Dir, desired: Desired, d: Dir, file: string)
    requires Completed(d0, desired, d)
    ensures !Stale(d, desired, file)
  {
  }

  /** Saving again what the directory already mirrors changes nothing, at any point of the save. */
  lemma SecondSaveChangesNothing(d0: Dir, desired: Desired, d: Dir, e: Dir)
    requires Completed(d0, desired, d) && SavePoint(d, desired, e)
    ensures e == d
  {
    if done :| WritePoint(d, desired, done, e) {
      RewriteChangesNothing(d0, desired, d, done, e);
    } else {
      var full, gone :| RemovePoint(d, desired, full, gone, e);
      RewriteChangesNothing(d0, desired, d, desired.Keys, full);
      forall file ensures file !in gone {
        NothingIsStale(d0, desired, d, file);
      }
    }
  }

  // ----- crash safety

  /** At d, k loads as it did from d0 or as the new manager has it; if it loaded before it loads now. */
  ghost predicate Safe(rd: Reader, d0: Dir, m: Manager, d: Dir, k: Key)
    requires k in m
  {
    && (forall b | LoadsAs(rd, d, k, b) :: b == m[k] || LoadsAs(rd, d0, k, b))
    && (!Absent(rd, d0, k) ==> !Absent(rd, d, k))
  }

  /** No other baseline of the new manager wants the file that currently decides k. */
  ghost predicate Undisturbed(rd: Reader, d0: Dir, m: Manager, k: Key) {
    forall w, j | Wins(rd, d0, w, k) && j in m && FileName(FileStem(j)) == w :: j == k
  }

  lemma {:induction false} WinnerExists(rd: Reader, d: Dir, k: Key, files: set<string>) returns (w: string)
    requires exists f :: f in files && Claims(rd, d, f, k)
    ensures w in files && Claims(rd, d, w, k)
    ensures forall f | f in files && Claims(rd, d, f, k) :: f == w || LexLess(f, w)
  {
    var f :| f in files && Claims(rd, d, f, k);
    var rest := files - {f};
    if g :| g in rest && Claims(rd, d, g, k) {
      w := WinnerExists(rd, d, k, rest);
      if LexLess(w, f) {
        forall x | x in files && Claims(rd, d, x, k) ensures x == f || LexLess(x, f) {
          if x in rest && x != w {
            LexTransitive(x, w, f);
          }
        }
        w := f;
      } else {
        LexTotal(w, f);
      }
    } else {
      w := f;
    }
  }

  /** Whoever claims k is a directory entry, so a claimed key has a winner. */
  lemma ClaimedHasWinner(rd: Reader, d: Dir, k: Key) returns (w: string)
    requires !Absent(rd, d, k)
    ensures Wins(rd, d, w, k)
  {
    var f :| Claims(rd, d, f, k);
    assert f in d.Keys;
    w := WinnerExists(rd, d, k, d.Keys);
  }

  /** Another baseline of the new manager wants this file. */
  ghost predicate WantedByOther(m: Manager, k: Key, file: string) {
    exists j :: j in m && j != k && FileName(FileStem(j)) == file
  }

  /** The record in file v is one that k may show: its new one, or the one it loads with now. */
  ghost predicate GoodRecord(rd: Reader, d0: Dir, m: Manager, k: Key, v: string)
    requires k in m && Claims(rd, d0, v, k)
  {
    var b := Contribution(rd, d0, v).value.baseline;
    b == m[k] || LoadsAs(rd, d0, k, b)
  }

  /** File u claims k, nobody else wants it, and it and every later claimant of k hold good records. */
  ghost predicate Anchors(rd: Reader, d0: Dir, m: Manager, k: Key, u: string)
    requires k in m
  {
    && Claims(rd, d0, u, k) && !WantedByOther(m, k, u)
    && forall v | Claims(rd, d0, v, k) && (v == u || LexLess(u, v)) :: GoodRecord(rd, d0, m, k, v)
  }

  ghost predicate Backed(rd: Reader, d0: Dir, m: Manager, k: Key)
    requires k in m
  {
    Absent(rd, d0, k) || exists u :: Anchors(rd, d0, m, k, u)
  }

  lemma UndisturbedIsBacked(rd: Reader, d0: Dir, m: Manager, k: Key)
    requires k in m && Undisturbed(rd, d0, m, k)
    ensures Backed(rd, d0, m, k)
  {
    if !Absent(rd, d0, k) {
      var w := ClaimedHasWinner(rd, d0, k);
      forall v | Claims(rd, d0, v, k) && (v == w || LexLess(w, v)) ensures v == w {
        if v != w {
          LexAsymmetric(v, w);
        }
      }
      assert Anchors(rd, d0, m, k, w);
    }
  }

  /** Who claims k at d has its new record, or its old one and is not hidden behind the anchor. */
  ghost predicate Kept(rd: Reader, d0: Dir, m: Manager, d: Dir, k: Key, v: string, u: string)
    requires k in m && Claims(rd, d, v, k)
  {
    || Contribution(rd, d, v).value.baseline == m[k]
    || (Contribution(rd, d, v) == Contribution(rd, d0, v) && (v == u || LexLess(u, v) || Claims(rd, d, u, k)))
  }

  lemma SafeByAnchor(rd: Reader, d0: Dir, m: Manager, d: Dir, k: Key, u: string)
    requires k in m && Anchors(rd, d0, m, k, u) && !Absent(rd, d, k)
    requires forall v | Claims(rd, d, v, k) :: Kept(rd, d0, m, d, k, v, u)
    ensures Safe(rd, d0, m, d, k)
  {
    forall v | Wins(rd, d, v, k)
      ensures var b := Contribution(rd, d, v).value.baseline; b == m[k] || LoadsAs(rd, d0, k, b)
    {
      assert Kept(rd, d0, m, d, k, v, u);
      if Contribution(rd, d, v).value.baseline != m[k] {
        assert v == u || LexLess(u, v);
        assert GoodRecord(rd, d0, m, k, v);
      }
    }
  }

  /** When nobody claimed k before, only its new record can show. */
  lemma SafeWhenAbsent(rd: Reader, d0: Dir, m: Manager, d: Dir, k: Key)
    requires k in m && Absent(rd, d0, k)
    requires forall v | Claims(rd, d, v, k) ::
               Contribution(rd, d, v).value.baseline == m[k] || Contribution(rd, d, v) == Contribution(rd, d0, v)
    ensures Safe(rd, d0, m, d, k)
  {
    forall v | Wins(rd, d, v, k) ensures Contribution(rd, d, v).value.baseline == m[k] {
      assert !Claims(rd, d0, v, k);
    }
  }

  lemma KeptAtWritePoint(rd: Reader, m: Manager, desired: Desired, d0: Dir, done: set<string>, d: Dir,
                         k: Key, v: string)
    requires GoodSave(rd, m, desired) && WritePoint(d0, desired, done, d)
    requires k in m && Claims(rd, d, v, k)
    ensures Contribution(rd, d, v).value.baseline == m[k] || Contribution(rd, d, v) == Contribution(rd, d0, v)
  {
    ClaimantsAtWritePoint(rd, m, desired, d0, done, d, v, k);
  }

  lemma SafeAtWritePoint(rd: Reader, m: Manager, desired: Desired, d0: Dir, done: set<string>, d: Dir, k: Key)
    requires GoodSave(rd, m, desired) && WritePoint(d0, desired, done, d)
    requires k in m && Backed(rd, d0, m, k)
    ensures Safe(rd, d0, m, d, k)
  {
    forall v | Claims(rd, d, v, k)
      ensures Contribution(rd, d, v).value.baseline == m[k] || Contribution(rd, d, v) == Contribution(rd, d0, v)
    {
      KeptAtWritePoint(rd, m, desired, d0, done, d, k, v);
    }
    if Absent(rd, d0, k) {
      SafeWhenAbsent(rd, d0, m, d, k);
    } else {
      var u :| Anchors(rd, d0, m, k, u);
      AnchorKeepsClaim(rd, m, desired, d0, done, d, k, u);
      SafeByAnchor(rd, d0, m, d, k, u);
    }
  }

  /** Writing files never takes k's anchor away from it. */
  lemma AnchorKeepsClaim(rd: Reader, m: Manager, desired: Desired, d0: Dir, done: set<string>, d: Dir,
                         k: Key, u: string)
    requires GoodSave(rd, m, desired) && WritePoint(d0, desired, done, d)
    requires k in m && Claims(rd, d0, u, k) && !WantedByOther(m, k, u)
    ensures Claims(rd, d, u, k)
  {
    ClaimantsAtWritePoint(rd, m, desired, d0, done, d, u, k);
    if WantedIn(done, u) {
      var j :| j in m && FileStem(j) == StemOf(u);
      FileNameOfStem(u);
      assert j == k;
    }
  }

  /** While an old claimant v survives the removals, the anchor u > v survives too. */
  lemma RemovalIsInOrder(rd: Reader, m: Manager, desired: Desired, d0: Dir, full: Dir, gone: set<string>, d: Dir,
                         k: Key, v: string, u: string)
    requires GoodSave(rd, m, desired) && RemovePoint(d0, desired, full, gone, d)
    requires k in m && Claims(rd, d0, u, k) && !WantedByOther(m, k, u)
    requires v in d && Claims(rd, d0, v, k) && !WantedIn(desired.Keys, v) && LexLess(v, u)
    ensures Claims(rd, d, u, k)
  {
    AnchorKeepsClaim(rd, m, desired, d0, desired.Keys, full, k, u);
    assert Stale(full, desired, v);
    LaterStays(d0, desired, full, gone, d, v, u);
    assert Contribution(rd, d, u) == Contribution(rd, full, u);
  }

  /** Removal goes up the names: as long as a stale v is there, every later file is. */
  lemma LaterStays(d0: Dir, desired: Desired, full: Dir, gone: set<string>, d: Dir, v: string, w: string)
    requires RemovePoint(d0, desired, full, gone, d)
    requires v in d && Stale(full, desired, v) && LexLess(v, w) && w in full
    ensures w in d && d[w] == full[w]
  {
  }

  lemma ClaimantsAtRemovePoint(rd: Reader, m: Manager, desired: Desired, d0: Dir, full: Dir, gone: set<string>,
                               d: Dir, k: Key, v: string)
    requires GoodSave(rd, m, desired) && RemovePoint(d0, desired, full, gone, d)
    requires k in m && Claims(rd, d, v, k)
    ensures Contribution(rd, d, v).value.baseline == m[k]
         || (Claims(rd, d0, v, k) && Contribution(rd, d, v) == Contribution(rd, d0, v)
             && !WantedIn(desired.Keys, v))
  {
    ClaimantsAtWritePoint(rd, m, desired, d0, desired.Keys, full, v, k);
    assert Contribution(rd, d, v) == Contribution(rd, full, v);
  }

  lemma OwnAtRemovePoint(rd: Reader, m: Manager, desired: Desired, d0: Dir, full: Dir, gone: set<string>, d: Dir,
                         k: Key)
    requires GoodSave(rd, m, desired) && RemovePoint(d0, desired, full, gone, d) && k in m
    ensures Claims(rd, d, FileName(FileStem(k)), k)
  {
    var own := FileName(FileStem(k));
    assert WantedIn(desired.Keys, own) && own !in gone;
    OwnFile(rd, m, desired, d, k);
  }

  lemma SafeAtRemovePoint(rd: Reader, m: Manager, desired: Desired, d0: Dir, full: Dir, gone: set<string>, d: Dir,
                          k: Key)
    requires GoodSave(rd, m, desired) && RemovePoint(d0, desired, full, gone, d)
    requires k in m && Backed(rd, d0, m, k)
    ensures Safe(rd, d0, m, d, k)
  {
    OwnAtRemovePoint(rd, m, desired, d0, full, gone, d, k);
    forall v | Claims(rd, d, v, k)
      ensures Contribution(rd, d, v).value.baseline == m[k]
           || (Claims(rd, d0, v, k) && Contribution(rd, d, v) == Contribution(rd, d0, v)
               && !WantedIn(desired.Keys, v))
    {
      ClaimantsAtRemovePoint(rd, m, desired, d0, full, gone, d, k, v);
    }
    if Absent(rd, d0, k) {
      SafeWhenAbsent(rd, d0, m, d, k);
    } else {
      var u :| Anchors(rd, d0, m, k, u);
      forall v | Claims(rd, d, v, k) ensures Kept(rd, d0, m, d, k, v, u) {
        LexTotal(u, v);
        if Contribution(rd, d, v).value.baseline != m[k] && LexLess(v, u) {
          RemovalIsInOrder(rd, m, desired, d0, full, gone, d, k, v, u);
        }
      }
      SafeByAnchor(rd, d0, m, d, k, u);
    }
  }

  /** A crash between file operations loses and mixes up no kept baseline that is backed. */
  lemma CrashSafe(rd: Reader, m: Manager, desired: Desired, d0: Dir, d: Dir, k: Key)
    requires GoodSave(rd, m, desired) && SavePoint(d0, desired, d)
    requires k in m && Backed(rd, d0, m, k)
    ensures Safe(rd, d0, m, d, k)
  {
    if done :| WritePoint(d0, desired, done, d) {
      SafeAtWritePoint(rd, m, desired, d0, done, d, k);
    } else {
      var full, gone :| RemovePoint(d0, desired, full, gone, d);
      SafeAtRemovePoint(rd, m, desired, d0, full, gone, d, k);
    }
  }

  /** No file disappears before every wanted file is in place. */
  lemma NothingRemovedEarly(d0: Dir, desired: Desired, d: Dir, file: string, stem: string)
    requires SavePoint(d0, desired, d) && file in d0 && file !in d && stem in desired
    ensures FileName(stem) in d && d[FileName(stem)] == File(desired[stem])
  {
    var full, gone :| RemovePoint(d0, desired, full, gone, d);
    assert WantedIn(desired.Keys, FileName(stem)) && !Stale(full, desired, FileName(stem));
  }

  ghost predicate UniqueClaims(rd: Reader, d: Dir) {
    forall f, g, k | Claims(rd, d, f, k) && Claims(rd, d, g, k) :: f == g
  }

  lemma WriteExtends(d0: Dir, desired: Desired, done: set<string>, d: Dir, stem: string)
    requires WritePoint(d0, desired, done, d) && stem in desired
    ensures WritePoint(d0, desired, done + {stem}, d[FileName(stem) := File(desired[stem])])
  {
    var more, e := done + {stem}, d[FileName(stem) := File(desired[stem])];
    forall file ensures WantedIn(more, file) <==> WantedIn(done, file) || file == FileName(stem) {
      if IsJson(file) {
        FileNameOfStem(file);
      }
    }
    forall file ensures file in e <==> file in d0 || WantedIn(more, file)
                ensures file in e ==>
                          e[file] == if WantedIn(more, file) then File(desired[StemOf(file)]) else d0[file]
    {
      if file != FileName(stem) {
        assert file in e <==> file in d;
      }
    }
  }

  /** The writes come in any order, so any set of them can be the first to be done. */
  lemma {:induction false} WriteSome(d0: Dir, desired: Desired, done: set<string>) returns (d: Dir)
    requires done <= desired.Keys
    ensures WritePoint(d0, desired, done, d)
    decreases |done|
  {
    d := d0;
    if done != {} {
      var stem :| stem in done;
      var before := WriteSome(d0, desired, done - {stem});
      WriteExtends(d0, desired, done - {stem}, before, stem);
      assert done - {stem} + {stem} == done;
      d := before[FileName(stem) := File(desired[stem])];
    }
  }

  /** The stems of other baselines whose files claim k and come after v ("" for all of them). */
  ghost function Takers(rd: Reader, d0: Dir, desired: Desired, k: Key, v: string): set<string> {
    set stem | stem in desired && stem != FileStem(k) && Claims(rd, d0, FileName(stem), k) && LexLess(v, FileName(stem))
  }

  /** After those writes, who still claims k claimed it before and is not one of those files. */
  lemma AfterTakers(rd: Reader, m: Manager, desired: Desired, d0: Dir, k: Key, v: string, d: Dir, file: string)
    requires GoodSave(rd, m, desired) && k in m
    requires WritePoint(d0, desired, Takers(rd, d0, desired, k, v), d)
    ensures WantedByOther(m, k, file) && Claims(rd, d0, file, k) && LexLess(v, file) ==> !Claims(rd, d, file, k)
    ensures !LexLess(v, file) ==> Contribution(rd, d, file) == Contribution(rd, d0, file)
    ensures Claims(rd, d, file, k) ==> Claims(rd, d0, file, k)
  {
    var done := Takers(rd, d0, desired, k, v);
    ClaimantsAtWritePoint(rd, m, desired, d0, done, d, file, k);
    if WantedByOther(m, k, file) && Claims(rd, d0, file, k) && LexLess(v, file) {
      var j :| j in m && j != k && FileName(FileStem(j)) == file;
      assert FileStem(j) in done && WantedIn(done, file);
    }
    if WantedIn(done, file) {
      FileNameOfStem(file);
      assert StemOf(FileName(FileStem(k))) == FileStem(k) != StemOf(file);
    }
  }

  /** If others want every file that claims k, a crash after their writes finds k lost. */
  lemma DisturbedIsLost(rd: Reader, m: Manager, desired: Desired, d0: Dir, k: Key) returns (d: Dir)
    requires GoodSave(rd, m, desired) && k in m
    requires forall v | Claims(rd, d0, v, k) :: WantedByOther(m, k, v)
    ensures SavePoint(d0, desired, d) && Absent(rd, d, k)
  {
    d := WriteSome(d0, desired, Takers(rd, d0, desired, k, ""));
    forall file ensures !Claims(rd, d, file, k) {
      AfterTakers(rd, m, desired, d0, k, "", d, file);
      assert IsJson(file) ==> file != "";
    }
  }

  /** If others want every claimant after v, a crash after their writes finds k with v's record. */
  lemma DisturbedShows(rd: Reader, m: Manager, desired: Desired, d0: Dir, k: Key, v: string) returns (d: Dir)
    requires GoodSave(rd, m, desired) && k in m && Claims(rd, d0, v, k)
    requires forall w | Claims(rd, d0, w, k) && LexLess(v, w) :: WantedByOther(m, k, w)
    ensures SavePoint(d0, desired, d) && LoadsAs(rd, d, k, Contribution(rd, d0, v).value.baseline)
  {
    d := WriteSome(d0, desired, Takers(rd, d0, desired, k, v));
    LexIrreflexive(v);
    AfterTakers(rd, m, desired, d0, k, v, d, v);
    forall w | Claims(rd, d, w, k) ensures w == v || LexLess(w, v) {
      AfterTakers(rd, m, desired, d0, k, v, d, w);
      LexTotal(v, w);
    }
    assert Wins(rd, d, v, k);
  }

  /** The last claimant of k that nobody else wants. */
  lemma {:induction false} LastFree(rd: Reader, d0: Dir, m: Manager, k: Key, files: set<string>) returns (u: string)
    requires exists f :: f in files && Claims(rd, d0, f, k) && !WantedByOther(m, k, f)
    ensures u in files && Claims(rd, d0, u, k) && !WantedByOther(m, k, u)
    ensures forall f | f in files && Claims(rd, d0, f, k) && LexLess(u, f) :: WantedByOther(m, k, f)
    decreases |files|
  {
    u :| u in files && Claims(rd, d0, u, k) && !WantedByOther(m, k, u);
    var later := set f | f in files && LexLess(u, f);
    if g :| g in later && Claims(rd, d0, g, k) && !WantedByOther(m, k, g) {
      LexIrreflexive(u);
      SmallerSet(later, files, u);
      var u' := LastFree(rd, d0, m, k, later);
      forall f | f in files && Claims(rd, d0, f, k) && LexLess(u', f) ensures WantedByOther(m, k, f) {
        LexTransitive(u, u', f);
      }
      u := u';
    }
  }

  lemma SmallerSet(a: set<string>, b: set<string>, x: string)
    requires a <= b && x in b && x !in a
    ensures |a| < |b|
  {
    var rest := b - a;
    assert x in rest;
    assert b == a + rest;
  }

  lemma UnsafeWhenUnbacked(rd: Reader, m: Manager, desired: Desired, d0: Dir, k: Key)
    requires GoodSave(rd, m, desired) && k in m && !Backed(rd, d0, m, k)
    ensures exists d :: SavePoint(d0, desired, d) && !Safe(rd, d0, m, d, k)
  {
    if forall v | Claims(rd, d0, v, k) :: WantedByOther(m, k, v) {
      var d := DisturbedIsLost(rd, m, desired, d0, k);
    } else {
      var f :| Claims(rd, d0, f, k) && !WantedByOther(m, k, f);
      assert f in d0.Keys;
      var u := LastFree(rd, d0, m, k, d0.Keys);
      assert !Anchors(rd, d0, m, k, u);
      var v :| Claims(rd, d0, v, k) && (v == u || LexLess(u, v)) && !GoodRecord(rd, d0, m, k, v);
      forall w | Claims(rd, d0, w, k) && LexLess(v, w) ensures WantedByOther(m, k, w) {
        if v != u {
          LexTransitive(u, v, w);
        }
        assert w in d0.Keys;
      }
      var d := DisturbedShows(rd, m, desired, d0, k, v);
    }
  }

  /**
  Exactly when a baseline survives every crash between file operations, whatever the directory
  held: nobody claims it yet, or some file that claims it is wanted by no other baseline, and
  that file and all later claimants hold its old or its new record.
  */
  lemma CrashSafetyExactly(rd: Reader, m: Manager, desired: Desired, d0: Dir, k: Key)
    requires GoodSave(rd, m, desired) && k in m
    ensures (forall d | SavePoint(d0, desired, d) :: Safe(rd, d0, m, d, k)) <==> Backed(rd, d0, m, k)
  {
    if Backed(rd, d0, m, k) {
      forall d | SavePoint(d0, desired, d) ensures Safe(rd, d0, m, d, k) {
        CrashSafe(rd, m, desired, d0, d, k);
      }
    } else {
      UnsafeWhenUnbacked(rd, m, desired, d0, k);
    }
  }

  /** With one file for each baseline: exactly when no other baseline wants that file. */
  lemma BackedWhenUnique(rd: Reader, d0: Dir, m: Manager, k: Key)
    requires k in m && UniqueClaims(rd, d0)
    ensures Backed(rd, d0, m, k) <==> Undisturbed(rd, d0, m, k)
  {
    if Undisturbed(rd, d0, m, k) {
      UndisturbedIsBacked(rd, d0, m, k);
    }
  }

  /** Every file is named after the baseline it holds, as saves leave it. */
  ghost predicate Canonical(rd: Reader, d: Dir) {
    forall file, k | Claims(rd, d, file, k) :: file == FileName(FileStem(k))
  }

  lemma CanonicalIsUndisturbed(rd: Reader, m: Manager, d0: Dir, k: Key)
    requires Canonical(rd, d0) && StemsDistinct(m) && k in m
    ensures UniqueClaims(rd, d0) && Undisturbed(rd, d0, m, k)
  {
    forall w, j | Wins(rd, d0, w, k) && j in m && FileName(FileStem(j)) == w ensures j == k {
      assert StemOf(w) == FileStem(k) == FileStem(j);
    }
  }

  /** A completed save leaves a canonical directory, so the next save starts from one. */
  lemma CompletedIsCanonical(rd: Reader, m: Manager, desired: Desired, d0: Dir, d: Dir)
    requires GoodSave(rd, m, desired) && Completed(d0, desired, d)
    ensures Canonical(rd, d)
  {
    forall file, k | Claims(rd, d, file, k) ensures file == FileName(FileStem(k)) {
      CompletedClaims(rd, m, desired, d0, d, file, k);
    }
  }

  /** Who claims a baseline that is not being saved claimed it before. */
  lemma OldClaimsOnly(rd: Reader, m: Manager, desired: Desired, d0: Dir, d: Dir, file: string, k: Key)
    requires GoodSave(rd, m, desired) && SavePoint(d0, desired, d) && k !in m && Claims(rd, d, file, k)
    ensures Contribution(rd, d, file) == Contribution(rd, d0, file)
  {
    if done :| WritePoint(d0, desired, done, d) {
      ClaimantsAtWritePoint(rd, m, desired, d0, done, d, file, k);
    } else {
      var full, gone :| RemovePoint(d0, desired, full, gone, d);
      assert Contribution(rd, d, file) == Contribution(rd, full, file);
      ClaimantsAtWritePoint(rd, m, desired, d0, desired.Keys, full, file, k);
    }
  }

  lemma NothingInvented(rd: Reader, m: Manager, desired: Desired, d0: Dir, d: Dir, k: Key, b: Baseline)
    requires GoodSave(rd, m, desired) && SavePoint(d0, desired, d)
    requires UniqueClaims(rd, d0) && k !in m && LoadsAs(rd, d, k, b)
    ensures LoadsAs(rd, d0, k, b)
  {
    var w :| Wins(rd, d, w, k) && Contribution(rd, d, w).value.baseline == b;
    OldClaimsOnly(rd, m, desired, d0, d, w, k);
    assert Claims(rd, d0, w, k);
    assert forall other | Claims(rd, d0, other, k) :: other == w;
    assert Wins(rd, d0, w, k);
  }

  lemma CanonicalIsUnique(rd: Reader, d: Dir)
    requires Canonical(rd, d)
    ensures UniqueClaims(rd, d)
  {
  }

  /**
  From a canonical directory, at every point between file operations: kept baselines load with
  their old or their new record, and nothing loads that was neither there nor wanted.
  */
  lemma CanonicalCrashSafe(rd: Reader, m: Manager, desired: Desired, d0: Dir, d: Dir, k: Key)
    requires GoodSave(rd, m, desired) && Canonical(rd, d0) && SavePoint(d0, desired, d)
    ensures k in m ==> Safe(rd, d0, m, d, k)
    ensures k !in m ==> forall b | LoadsAs(rd, d, k, b) :: LoadsAs(rd, d0, k, b)
  {
    if k in m {
      CanonicalIsUndisturbed(rd, m, d0, k);
      UndisturbedIsBacked(rd, d0, m, k);
      CrashSafe(rd, m, desired, d0, d, k);
    } else {
      CanonicalIsUnique(rd, d0);
      forall b | LoadsAs(rd, d, k, b) ensures LoadsAs(rd, d0, k, b) {
        NothingInvented(rd, m, desired, d0, d, k, b);
      }
    }
  }

  /** The file of j is half written at d: it claims nothing, and all else is as at the write point. */
  lemma TornFile(rd: Reader, m: Manager, desired: Desired, base: Dir, n: nat, j: Key, file: string, k: Key)
    requires GoodSave(rd, m, desired) && PrefixFree(rd) && j in m && n < |desired[FileStem(j)]|
    ensures var d := base[FileName(FileStem(j)) := File(desired[FileStem(j)][..n])];
            && (file == FileName(FileStem(j)) ==> !Claims(rd, d, file, k))
            && (file != FileName(FileStem(j)) ==> Contribution(rd, d, file) == Contribution(rd, base, file))
  {
    assert rd.decode(desired[FileStem(j)][..n]) == None by {
      assert desired[FileStem(j)][..n] == rd.encode(m[j])[..n];
    }
    Garbage(rd, base, FileName(FileStem(j)), desired[FileStem(j)][..n], file, k);
  }

  lemma Garbage(rd: Reader, base: Dir, torn: string, content: string, file: string, k: Key)
    requires rd.decode(content) == None
    ensures var d := base[torn := File(content)];
            && (file == torn ==> !Claims(rd, d, file, k))
            && (file != torn ==> Contribution(rd, d, file) == Contribution(rd, base, file))
  {
  }

  /**
  os.WriteFile truncates before it writes. While one file is half written its own baseline is
  lost unless some other file that claims it has not been overwritten, and every other backed
  baseline is safe.
  */
  lemma TornWriteLosesOne(rd: Reader, m: Manager, desired: Desired, d0: Dir, done: set<string>, n: nat, d: Dir,
                          j: Key, k: Key)
    requires GoodSave(rd, m, desired) && PrefixFree(rd)
    requires j in m && k in m && n < |desired[FileStem(j)]|
    requires TornPoint(d0, desired, done, FileStem(j), n, d)
    ensures k == j ==>
              (Absent(rd, d, k) <==>
                 forall v | Claims(rd, d0, v, k) && v != FileName(FileStem(k)) :: WantedIn(done, v))
    ensures k != j && Backed(rd, d0, m, k) ==> Safe(rd, d0, m, d, k)
  {
    var own := FileName(FileStem(j));
    var base :| WritePoint(d0, desired, done, base) && d == base[own := File(desired[FileStem(j)][..n])];
    forall v ensures v == own ==> !Claims(rd, d, v, k)
             ensures v != own ==> Contribution(rd, d, v) == Contribution(rd, base, v)
    {
      TornFile(rd, m, desired, base, n, j, v, k);
    }
    if k == j {
      TornAtHome(rd, m, desired, d0, done, base, d, k);
    } else if Backed(rd, d0, m, k) {
      TornElsewhere(rd, m, desired, d0, done, base, d, j, k);
    }
  }

  lemma TornAtHome(rd: Reader, m: Manager, desired: Desired, d0: Dir, done: set<string>, base: Dir, d: Dir, k: Key)
    requires GoodSave(rd, m, desired) && WritePoint(d0, desired, done, base) && k in m
    requires !Claims(rd, d, FileName(FileStem(k)), k)
    requires forall v | v != FileName(FileStem(k)) :: Contribution(rd, d, v) == Contribution(rd, base, v)
    ensures Absent(rd, d, k) <==> forall v | Claims(rd, d0, v, k) && v != FileName(FileStem(k)) :: WantedIn(done, v)
  {
    forall v | v != FileName(FileStem(k))
      ensures Claims(rd, d, v, k) <==> Claims(rd, d0, v, k) && !WantedIn(done, v)
    {
      ClaimantsAtWritePoint(rd, m, desired, d0, done, base, v, k);
      assert Contribution(rd, d, v) == Contribution(rd, base, v);
    }
  }

  lemma TornElsewhere(rd: Reader, m: Manager, desired: Desired, d0: Dir, done: set<string>, base: Dir, d: Dir,
                      j: Key, k: Key)
    requires GoodSave(rd, m, desired) && WritePoint(d0, desired, done, base)
    requires j in m && k in m && j != k && Backed(rd, d0, m, k)
    requires !Claims(rd, d, FileName(FileStem(j)), k)
    requires forall v | v != FileName(FileStem(j)) :: Contribution(rd, d, v) == Contribution(rd, base, v)
    ensures Safe(rd, d0, m, d, k)
  {
    forall v | Claims(rd, d, v, k)
      ensures Contribution(rd, d, v).value.baseline == m[k] || Contribution(rd, d, v) == Contribution(rd, d0, v)
    {
      assert Contribution(rd, d, v) == Contribution(rd, base, v);
      KeptAtWritePoint(rd, m, desired, d0, done, base, k, v);
    }
    if Absent(rd, d0, k) {
      SafeWhenAbsent(rd, d0, m, d, k);
    } else {
      var u :| Anchors(rd, d0, m, k, u);
      AnchorKeepsClaim(rd, m, desired, d0, done, base, k, u);
      assert u != FileName(FileStem(j));
      assert Claims(rd, d, u, k);
      SafeByAnchor(rd, d0, m, d, k, u);
    }
  }
}
