/**
The release version check: what the changelog, the chart and the image tag claim must agree
with the tags that exist. The files come as lines; the tag set and the match of the chart's
appVersion line are inputs.
*/
module ReleaseVersions {
  import opened Wrappers
  import opened Text
  import opened Decimals

  // ----- changelog sections

  datatype Section = Section(version: string, body: seq<string>)

  function IndexOf(s: string, c: char): (i: nat)
    ensures i <= |s| && (i < |s| ==> s[i] == c) && c !in s[..i]
  {
    if s == "" || s[0] == c then 0
    else
      var i := IndexOf(s[1..], c);
      assert s[..i + 1] == [s[0]] + s[1..][..i];
      i + 1
  }

  /** ^## \[v([0-9][^\]]*)\] */
  function HeaderVersion(line: string): Option<string> {
    if !HasPrefix(line, "## [v") then None
    else
      var rest := line[5..];
      var k := IndexOf(rest, ']');
      if rest != "" && IsDigit(rest[0]) && k < |rest| then Some(rest[..k]) else None
  }

  ghost predicate IsHeaderOf(line: string, v: string, tail: string) {
    line == "## [v" + v + "]" + tail && v != "" && IsDigit(v[0]) && ']' !in v
  }

  /** A version header: the bracketed version starts with a digit and ends at the first bracket. */
  lemma HeaderVersionExactly(line: string, v: string)
    ensures HeaderVersion(line) == Some(v) <==> exists tail: string :: IsHeaderOf(line, v, tail)
  {
    if HeaderVersion(line) == Some(v) {
      var rest := line[5..];
      var k := IndexOf(rest, ']');
      assert line == "## [v" + rest && rest == v + "]" + rest[k + 1..];
      assert IsHeaderOf(line, v, rest[k + 1..]);
    }
    if tail: string :| IsHeaderOf(line, v, tail) {
      HeaderOf(line, v, tail);
    }
  }

  lemma HeaderOf(line: string, v: string, tail: string)
    requires IsHeaderOf(line, v, tail)
    ensures HeaderVersion(line) == Some(v)
  {
    var rest := v + "]" + tail;
    assert line == "## [v" + rest;
    assert line[..5] == "## [v" && line[5..] == rest;
    IndexIs(v, ']', tail);
    assert rest[..|v|] == v && rest[0] == v[0];
  }

  lemma {:induction false} IndexIs(v: string, c: char, tail: string)
    requires c !in v
    ensures IndexOf(v + [c] + tail, c) == |v|
  {
    if v == "" {
      assert v + [c] + tail == [c] + tail;
    } else {
      assert (v + [c] + tail)[1..] == v[1..] + [c] + tail;
      IndexIs(v[1..], c, tail);
    }
  }

  /** Any "## [" line ends the section before it. */
  predicate Closes(line: string) {
    HasPrefix(line, "## [")
  }

  lemma ClosesExactly(line: string)
    ensures Closes(line) <==> exists tail: string :: line == "## [" + tail
  {
    PrefixExactly(line, "## [");
  }

  lemma HeaderCloses(line: string)
    requires HeaderVersion(line).Some?
    ensures Closes(line)
  {
    assert line[..4] == line[..5][..4];
  }

  function BlockEnd(lines: seq<string>, i: nat): (e: nat)
    requires i <= |lines|
    ensures i <= e <= |lines| && (e < |lines| ==> Closes(lines[e])) && forall k | i <= k < e :: !Closes(lines[k])
    decreases |lines| - i
  {
    if i == |lines| || Closes(lines[i]) then i else BlockEnd(lines, i + 1)
  }

  /** The maximal block that the version header at line i opens. */
  function SectionAt(lines: seq<string>, i: nat): Section
    requires i < |lines| && HeaderVersion(lines[i]).Some?
  {
    Section(HeaderVersion(lines[i]).value, lines[i..BlockEnd(lines, i + 1)])
  }

  function SectionsFrom(lines: seq<string>, i: nat): seq<Section>
    decreases |lines| - i
  {
    if i >= |lines| then []
    else if HeaderVersion(lines[i]).Some? then [SectionAt(lines, i)] + SectionsFrom(lines, i + 1)
    else SectionsFrom(lines, i + 1)
  }

  ghost predicate IsOneOf(starts: seq<nat>, k: nat) {
    exists x {:trigger starts[x]} | 0 <= x < |starts| :: starts[x] == k
  }

  /** `starts` lists the version headers from line i on, in order, and each opens its section. */
  ghost predicate AreSections(lines: seq<string>, i: nat, starts: seq<nat>, out: seq<Section>) {
    && EachOpens(lines, i, starts, out)
    && (forall x, y | 0 <= x < y < |starts| :: starts[x] < starts[y])
    && (forall k: nat | i <= k < |lines| && IsVersionHeader(lines, k) :: IsOneOf(starts, k))
  }

  ghost predicate EachOpens(lines: seq<string>, i: nat, starts: seq<nat>, out: seq<Section>) {
    |starts| == |out| && forall x | 0 <= x < |starts| :: i <= starts[x] && Opens(lines, starts[x], out[x])
  }

  predicate IsVersionHeader(lines: seq<string>, k: nat) {
    k < |lines| && HeaderVersion(lines[k]).Some?
  }

  predicate Opens(lines: seq<string>, k: nat, s: Section) {
    IsVersionHeader(lines, k) && s == SectionAt(lines, k)
  }

  lemma FoundAfterPrepend(i: nat, starts: seq<nat>, k: nat)
    requires k == i || IsOneOf(starts, k)
    ensures IsOneOf([i] + starts, k)
  {
    var all := [i] + starts;
    assert all[0] == i;
    if k != i {
      var x :| 0 <= x < |starts| && starts[x] == k;
      assert all[x + 1] == k;
    }
  }

  lemma PrependOpens(lines: seq<string>, i: nat, s: Section, starts: seq<nat>, out: seq<Section>)
    requires Opens(lines, i, s) && EachOpens(lines, i + 1, starts, out)
    ensures EachOpens(lines, i, [i] + starts, [s] + out)
    ensures forall x | 0 < x < |starts| + 1 :: ([i] + starts)[x] == starts[x - 1] > i
  {
    var all, more := [i] + starts, [s] + out;
    forall x | 0 <= x < |all| ensures i <= all[x] && Opens(lines, all[x], more[x]) {
      if x > 0 {
        assert all[x] == starts[x - 1] && more[x] == out[x - 1];
      }
    }
  }

  lemma PrependSection(lines: seq<string>, i: nat, starts: seq<nat>, out: seq<Section>)
    requires i < |lines| && HeaderVersion(lines[i]).Some? && AreSections(lines, i + 1, starts, out)
    ensures AreSections(lines, i, [i] + starts, [SectionAt(lines, i)] + out)
  {
    var all := [i] + starts;
    PrependOpens(lines, i, SectionAt(lines, i), starts, out);
    forall k: nat | i <= k < |lines| && IsVersionHeader(lines, k) ensures IsOneOf(all, k) {
      FoundAfterPrepend(i, starts, k);
    }
  }

  /** The sections are exactly the blocks of the version headers, in document order. */
  lemma {:induction false} SectionsExactly(lines: seq<string>, i: nat) returns (starts: seq<nat>)
    ensures AreSections(lines, i, starts, SectionsFrom(lines, i))
    decreases |lines| - i
  {
    if i >= |lines| {
      starts := [];
    } else {
      starts := SectionsExactly(lines, i + 1);
      if HeaderVersion(lines[i]).Some? {
        PrependSection(lines, i, starts, SectionsFrom(lines, i + 1));
        starts := [i] + starts;
      }
    }
  }

  /** What is still open when the parser reaches line i: its text and the rest of its block. */
  function Pending(lines: seq<string>, i: nat, current: Option<string>, buf: seq<string>): seq<Section>
    requires i <= |lines|
  {
    if current.None? then [] else [Section(current.value, buf + lines[i..BlockEnd(lines, i)])]
  }

  lemma PendingContinues(lines: seq<string>, i: nat, current: Option<string>, buf: seq<string>)
    requires i < |lines| && !Closes(lines[i])
    ensures Pending(lines, i, current, buf) == Pending(lines, i + 1, current, buf + [lines[i]])
  {
    var e := BlockEnd(lines, i);
    assert lines[i..e] == [lines[i]] + lines[i + 1..e];
    assert buf + lines[i..e] == buf + [lines[i]] + lines[i + 1..e];
  }

  lemma PendingOpens(lines: seq<string>, i: nat)
    requires i < |lines| && HeaderVersion(lines[i]).Some?
    ensures Pending(lines, i + 1, HeaderVersion(lines[i]), [lines[i]]) == [SectionAt(lines, i)]
  {
    var e := BlockEnd(lines, i + 1);
    assert lines[i..e] == [lines[i]] + lines[i + 1..e];
  }

  lemma PendingClosed(lines: seq<string>, i: nat, current: Option<string>, buf: seq<string>)
    requires i <= |lines| && (i < |lines| ==> Closes(lines[i]))
    ensures Pending(lines, i, current, buf) == if current.None? then [] else [Section(current.value, buf)]
  {
    assert buf + lines[i..i] == buf;
  }

  /** What has been found and what is still to come make up all sections. */
  ghost predicate OnTrack(lines: seq<string>, i: nat, out: seq<Section>, current: Option<string>, buf: seq<string>) {
    i <= |lines| && out + (Pending(lines, i, current, buf) + SectionsFrom(lines, i)) == SectionsFrom(lines, 0)
  }

  lemma TrackHeader(lines: seq<string>, i: nat, out: seq<Section>, current: Option<string>, buf: seq<string>)
    requires i < |lines| && OnTrack(lines, i, out, current, buf) && HeaderVersion(lines[i]).Some?
    ensures OnTrack(lines, i + 1, out + (if current.None? then [] else [Section(current.value, buf)]),
                    HeaderVersion(lines[i]), [lines[i]])
  {
    HeaderCloses(lines[i]);
    PendingClosed(lines, i, current, buf);
    PendingOpens(lines, i);
  }

  lemma TrackOther(lines: seq<string>, i: nat, out: seq<Section>, current: Option<string>, buf: seq<string>)
    requires i < |lines| && OnTrack(lines, i, out, current, buf) && HeaderVersion(lines[i]).None?
    ensures current.None? ==> OnTrack(lines, i + 1, out, current, buf)
    ensures current.Some? && Closes(lines[i]) ==>
              OnTrack(lines, i + 1, out + [Section(current.value, buf)], None, [])
    ensures !Closes(lines[i]) ==> OnTrack(lines, i + 1, out, current, buf + [lines[i]])
  {
    if Closes(lines[i]) {
      PendingClosed(lines, i, current, buf);
    } else {
      PendingContinues(lines, i, current, buf);
    }
  }

  /** changelog_sections in one pass over the lines. */
  method ChangelogSections(lines: seq<string>) returns (out: seq<Section>)
    ensures out == SectionsFrom(lines, 0)
  {
    out := [];
    var current: Option<string>, buf: seq<string> := None, [];
    for i := 0 to |lines|
      invariant OnTrack(lines, i, out, current, buf)
    {
      var line := lines[i];
      var version := HeaderVersion(line);
      if version.Some? {
        TrackHeader(lines, i, out, current, buf);
        if current.Some? {
          out := out + [Section(current.value, buf)];
        }
        current, buf := version, [line];
      } else {
        TrackOther(lines, i, out, current, buf);
        if current.None? {
        } else if Closes(line) {
          out := out + [Section(current.value, buf)];
          current, buf := None, [];
        } else {
          buf := buf + [line];
        }
      }
    }
    PendingClosed(lines, |lines|, current, buf);
    if current.Some? {
      out := out + [Section(current.value, buf)];
    }
  }

  // ----- the image tag of values.yaml

  function SkipSpaces(s: string): string {
    TrimLeft(s)
  }

  predicate OpensImage(raw: string) {
    HasPrefix(raw, "image:") && AllSpace(raw[6..])
  }

  predicate LeavesBlock(raw: string) {
    raw != "" && raw[0] != ' ' && raw[0] != '\t' && raw[0] != '#'
  }

  /** The image key alone on its line opens the block; a line that starts with neither blank nor '#' leaves it. */
  lemma BlockLinesExactly(raw: string)
    ensures OpensImage(raw) <==> exists blanks: string :: raw == "image:" + blanks && AllSpace(blanks)
    ensures LeavesBlock(raw) <==> raw != "" && raw[0] !in [' ', '\t', '#']
  {
    if OpensImage(raw) {
      assert raw == "image:" + raw[6..];
    }
    if blanks: string :| raw == "image:" + blanks && AllSpace(blanks) {
      assert raw[..6] == "image:" && raw[6..] == blanks;
    }
  }

  function WordLength(s: string): nat {
    if s == "" || s[0] == '"' || s[0] == '#' || IsSpace(s[0]) then 0 else 1 + WordLength(s[1..])
  }

  lemma WordFits(s: string)
    ensures WordLength(s) <= |s|
  {
  }

  /** ^\s+tag:\s*"?([^"\s#]+)"? */
  function TagValue(raw: string): (value: Option<string>)
    ensures value.Some? ==> value.value != ""
  {
    var a := SkipSpaces(raw);
    if raw == "" || !IsSpace(raw[0]) || !HasPrefix(a, "tag:") then None
    else
      var b := SkipSpaces(a[4..]);
      var c := if HasPrefix(b, "\"") then b[1..] else b;
      WordFits(c);
      if WordLength(c) == 0 then None else Some(c[..WordLength(c)])
  }

  predicate IsTagWord(w: string) {
    w != "" && forall i | 0 <= i < |w| :: w[i] != '"' && w[i] != '#' && !IsSpace(w[i])
  }

  lemma {:induction false} WordLengthIs(w: string, rest: string)
    requires forall i | 0 <= i < |w| :: w[i] != '"' && w[i] != '#' && !IsSpace(w[i])
    requires rest == "" || rest[0] == '"' || rest[0] == '#' || IsSpace(rest[0])
    ensures WordLength(w + rest) == |w|
  {
    if w == "" {
      assert w + rest == rest;
    } else {
      assert (w + rest)[1..] == w[1..] + rest;
      WordLengthIs(w[1..], rest);
    }
  }

  lemma {:induction false} SkipsSpaces(a: string, s: string)
    requires AllSpace(a) && s != "" && !IsSpace(s[0])
    ensures SkipSpaces(a + s) == s
  {
    if a == "" {
      assert a + s == s;
    } else {
      assert (a + s)[0] == a[0] && (a + s)[1..] == a[1..] + s;
      SkipsSpaces(a[1..], s);
    }
  }

  /** An indented tag line gives its word, quoted or not, whatever follows the word. */
  lemma TagLine(indent: string, gap: string, word: string, rest: string, quoted: bool)
    requires indent != "" && AllSpace(indent) && AllSpace(gap) && IsTagWord(word)
    requires rest == "" || rest[0] == '"' || rest[0] == '#' || IsSpace(rest[0])
    ensures var value := if quoted then "\"" + (word + rest) else word + rest;
            TagValue(indent + ("tag:" + (gap + value))) == Some(word)
  {
    var value := if quoted then "\"" + (word + rest) else word + rest;
    var a := "tag:" + (gap + value);
    SkipsSpaces(indent, a);
    assert (indent + a)[0] == indent[0];
    assert a[..4] == "tag:" && a[4..] == gap + value;
    assert !IsSpace(value[0]) by {
      assert !quoted ==> value[0] == word[0];
    }
    SkipsSpaces(gap, value);
    TagInValue(word, rest, quoted);
  }

  lemma TagInValue(word: string, rest: string, quoted: bool)
    requires IsTagWord(word) && (rest == "" || rest[0] == '"' || rest[0] == '#' || IsSpace(rest[0]))
    ensures var value := if quoted then "\"" + (word + rest) else word + rest;
            var c := if HasPrefix(value, "\"") then value[1..] else value;
            |word| <= |c| && WordLength(c) == |word| && c[..|word|] == word
  {
    WordLengthIs(word, rest);
    if quoted {
      assert ("\"" + (word + rest))[1..] == word + rest;
    } else {
      assert (word + rest)[0] == word[0];
    }
  }

  /** A line that is not indented, or has something else where "tag:" should be, gives none. */
  lemma NoTagLine(raw: string)
    requires raw == "" || !IsSpace(raw[0]) || !HasPrefix(TrimLeft(raw), "tag:")
    ensures TagValue(raw) == None
  {
  }

  /** Line k lies in a top-level image block: no line between its header and k leaves the block. */
  ghost predicate InImageBlock(lines: seq<string>, k: nat) {
    exists h {:trigger lines[h]} | 0 <= h < k && h < |lines| ::
      OpensImage(lines[h]) && forall j | h < j < k && j < |lines| :: !LeavesBlock(lines[j])
  }

  ghost predicate IsImageTagLine(lines: seq<string>, k: nat) {
    k < |lines| && InImageBlock(lines, k) && !LeavesBlock(lines[k]) && TagValue(lines[k]).Some?
  }

  lemma BlockNext(lines: seq<string>, k: nat)
    requires k < |lines|
    ensures InImageBlock(lines, k + 1) <==> OpensImage(lines[k]) || (InImageBlock(lines, k) && !LeavesBlock(lines[k]))
  {
    if InImageBlock(lines, k + 1) {
      var h :| 0 <= h < k + 1 && h < |lines| && OpensImage(lines[h])
               && forall j | h < j < k + 1 && j < |lines| :: !LeavesBlock(lines[j]);
      assert h < k ==> !LeavesBlock(lines[k]);
    }
    if InImageBlock(lines, k) && !LeavesBlock(lines[k]) {
      var h :| 0 <= h < k && h < |lines| && OpensImage(lines[h])
               && forall j | h < j < k && j < |lines| :: !LeavesBlock(lines[j]);
      assert forall j | h < j < k + 1 && j < |lines| :: !LeavesBlock(lines[j]);
    }
  }

  lemma ImageLineLeaves(raw: string)
    requires OpensImage(raw)
    ensures LeavesBlock(raw)
  {
    assert raw[..6][0] == 'i';
  }

  /** image_tag_of: the first tag line of an image block, and "" exactly when there is none. */
  method ImageTagOf(lines: seq<string>) returns (tag: string)
    ensures tag == "" <==> forall k: nat :: !IsImageTagLine(lines, k)
    ensures tag != "" ==> exists k: nat :: IsImageTagLine(lines, k) && TagValue(lines[k]) == Some(tag)
                                           && forall j: nat | j < k :: !IsImageTagLine(lines, j)
  {
    var inImage := false;
    for k := 0 to |lines|
      invariant inImage <==> InImageBlock(lines, k)
      invariant forall j: nat | j < k :: !IsImageTagLine(lines, j)
    {
      var raw := lines[k];
      BlockNext(lines, k);
      if OpensImage(raw) {
        ImageLineLeaves(raw);
        inImage := true;
      } else if inImage {
        if LeavesBlock(raw) {
          inImage := false;
        } else if TagValue(raw).Some? {
          assert IsImageTagLine(lines, k);
          return TagValue(raw).value;
        }
      }
    }
    return "";
  }

  // ----- versions

  /** The numbers in a version, as parse_version finds them. */
  function ParseVersion(s: string): seq<nat> {
    if s == "" then []
    else if !IsDigit(s[0]) then ParseVersion(s[1..])
    else
      var k := DigitRun(s);
      [Value(s[..k])] + ParseVersion(s[if k == 0 then 1 else k..])
  }

  /** Python's order on tuples. */
  predicate Older(a: seq<nat>, b: seq<nat>) {
    if b == [] then false
    else if a == [] then true
    else if a[0] != b[0] then a[0] < b[0]
    else Older(a[1..], b[1..])
  }

  lemma {:induction false} OlderTotal(a: seq<nat>, b: seq<nat>)
    ensures a == b || Older(a, b) || Older(b, a)
  {
    if a != [] && b != [] && a[0] == b[0] {
      OlderTotal(a[1..], b[1..]);
      assert a == [a[0]] + a[1..] && b == [b[0]] + b[1..];
    }
  }

  lemma {:induction false} OlderTransitive(a: seq<nat>, b: seq<nat>, c: seq<nat>)
    requires Older(a, b) && Older(b, c)
    ensures Older(a, c)
  {
    if a != [] && a[0] == b[0] == c[0] {
      OlderTransitive(a[1..], b[1..], c[1..]);
    }
  }

  lemma {:induction false} OlderIrreflexive(a: seq<nat>)
    ensures !Older(a, a)
  {
    if a != [] {
      OlderIrreflexive(a[1..]);
    }
  }

  /** The first number that differs decides, and a version is older than its extensions. */
  lemma {:induction false} OlderFirstDifference(p: seq<nat>, x: nat, a: seq<nat>, y: nat, b: seq<nat>)
    ensures x < y ==> Older(p + ([x] + a), p + ([y] + b))
    ensures Older(p, p + ([x] + a))
    decreases |p|
  {
    if p == [] {
      assert p + ([x] + a) == [x] + a && p + ([y] + b) == [y] + b;
    } else {
      OlderFirstDifference(p[1..], x, a, y, b);
      assert (p + ([x] + a))[1..] == p[1..] + ([x] + a);
      assert (p + ([y] + b))[1..] == p[1..] + ([y] + b);
    }
  }

  function WithV(version: string): string {
    if HasPrefix(version, "v") then version else "v" + version
  }

  ghost predicate NewerThanAll(version: seq<nat>, tags: set<string>) {
    forall t | t in tags :: Older(ParseVersion(t), version)
  }

  /** max(tags, key=parse_version): no tag has a newer version. */
  method NewestTag(tags: set<string>) returns (newest: string)
    requires tags != {}
    ensures newest in tags && forall t | t in tags :: !Older(ParseVersion(newest), ParseVersion(t))
  {
    newest :| newest in tags;
    OlderIrreflexive(ParseVersion(newest));
    var rest := tags - {newest};
    while rest != {}
      invariant rest <= tags && newest in tags
      invariant forall t | t in tags - rest :: !Older(ParseVersion(newest), ParseVersion(t))
    {
      var t :| t in rest;
      if Older(ParseVersion(newest), ParseVersion(t)) {
        NewMaximum(tags - rest, newest, t);
        newest := t;
      }
      rest := rest - {t};
    }
  }

  lemma NewMaximum(seen: set<string>, was: string, t: string)
    requires forall x | x in seen :: !Older(ParseVersion(was), ParseVersion(x))
    requires Older(ParseVersion(was), ParseVersion(t))
    ensures forall x | x in seen :: !Older(ParseVersion(t), ParseVersion(x))
    ensures !Older(ParseVersion(t), ParseVersion(t))
  {
    OlderIrreflexive(ParseVersion(t));
    forall x | x in seen ensures !Older(ParseVersion(t), ParseVersion(x)) {
      if Older(ParseVersion(t), ParseVersion(x)) {
        OlderTransitive(ParseVersion(was), ParseVersion(t), ParseVersion(x));
      }
    }
  }

  /** Newer than the newest tag is newer than every tag. */
  lemma NewerThanNewest(newest: string, tags: set<string>, version: seq<nat>)
    requires newest in tags && forall t | t in tags :: !Older(ParseVersion(newest), ParseVersion(t))
    ensures Older(ParseVersion(newest), version) <==> NewerThanAll(version, tags)
  {
    if Older(ParseVersion(newest), version) {
      forall t | t in tags ensures Older(ParseVersion(t), version) {
        OlderTotal(ParseVersion(t), ParseVersion(newest));
        if ParseVersion(t) != ParseVersion(newest) {
          OlderTransitive(ParseVersion(t), ParseVersion(newest), version);
        }
      }
    }
  }

  // ----- the rules

  datatype Failure =
    | NoAppVersion | NoImageTag | VersionsDiffer | NoTags | ImageNotReleased | ChartNotReleased
    | UndeclaredSection(version: string)

  /** A section that is tagged, or not newer than every tag, or declared pending. */
  ghost predicate SectionOk(s: Section, tags: set<string>, declared: Section -> bool) {
    "v" + s.version in tags || !NewerThanAll(ParseVersion(s.version), tags) || declared(s)
  }

  ghost predicate SectionsOk(ss: seq<Section>, tags: set<string>, declared: Section -> bool) {
    forall i | 0 <= i < |ss| :: SectionOk(ss[i], tags, declared)
  }

  /**
  What passes. `app` is what first_match finds: None without an appVersion line, and the stripped
  value with one. A value that strips to nothing is not reported, and no rule looks at it.
  */
  ghost predicate Consistent(app: Option<string>, image: string, log: seq<string>, tags: set<string>,
                             declared: Section -> bool) {
    && app.Some? && image != "" && image in tags
    && (app.value == "" || Advertises(app.value, image, tags))
    && SectionsOk(SectionsFrom(log, 0), tags, declared)
  }

  /** The version is released, and its numbers are those of the image tag. */
  predicate Advertises(app: string, image: string, tags: set<string>) {
    ParseVersion(app) == ParseVersion(image) && WithV(app) in tags
  }

  /** Rule 3 over the sections. `declared` is the search for a pending declaration in a body. */
  method CheckSections(ss: seq<Section>, tags: set<string>, newest: string, declared: Section -> bool)
    returns (failures: seq<Failure>)
    requires newest in tags && forall t | t in tags :: !Older(ParseVersion(newest), ParseVersion(t))
    ensures failures == [] <==> SectionsOk(ss, tags, declared)
  {
    failures := [];
    for i := 0 to |ss|
      invariant failures == [] <==> forall k | 0 <= k < i :: SectionOk(ss[k], tags, declared)
    {
      var s := ss[i];
      NewerThanNewest(newest, tags, ParseVersion(s.version));
      if "v" + s.version in tags {
      } else if Older(ParseVersion(newest), ParseVersion(s.version)) {
        if !declared(s) {
          failures := failures + [UndeclaredSection(s.version)];
        }
      }
    }
  }

  /** main: exit status 0 exactly when the claims are consistent with the tags. */
  method CheckVersions(app: Option<string>, values: seq<string>, log: seq<string>, tags: set<string>,
                       declared: Section -> bool)
    returns (exit: int, image: string)
    ensures exit == 0 || exit == 1
    ensures image == "" <==> forall k: nat :: !IsImageTagLine(values, k)
    ensures image != "" ==> exists k: nat :: IsImageTagLine(values, k) && TagValue(values[k]) == Some(image)
                                             && forall j: nat | j < k :: !IsImageTagLine(values, j)
    ensures exit == 0 <==> Consistent(app, image, log, tags, declared)
  {
    image := ImageTagOf(values);
    var failures: seq<Failure> := [];
    if app.None? {
      failures := failures + [NoAppVersion];
    }
    var version := if app.Some? then app.value else "";
    if image == "" {
      failures := failures + [NoImageTag];
    }
    if version != "" && image != "" && ParseVersion(version) != ParseVersion(image) {
      failures := failures + [VersionsDiffer];
    }
    if tags == {} {
      return 1, image;
    }
    var newest := NewestTag(tags);
    if image != "" && image !in tags {
      failures := failures + [ImageNotReleased];
    }
    if version != "" && WithV(version) !in tags {
      failures := failures + [ChartNotReleased];
    }
    var sections := ChangelogSections(log);
    var more := CheckSections(sections, tags, newest, declared);
    exit := if failures + more == [] then 0 else 1;
  }

  lemma SkipSeparator(c: char, rest: string)
    requires !IsDigit(c)
    ensures ParseVersion([c] + rest) == ParseVersion(rest)
  {
    assert ([c] + rest)[1..] == rest;
  }

  lemma TwoNumbers(a: string, c: char, b: string)
    requires a != "" && b != "" && AllDigits(a) && AllDigits(b) && !IsDigit(c)
    ensures ParseVersion(a + ([c] + b)) == [Value(a)] + ParseVersion(b)
  {
    NextNumber(a, [c] + b);
    SkipSeparator(c, b);
  }

  /**
  Equal numbers are not equal names: "1-2" and "v1.2" pass rule 1, and with both tagged the
  chart advertises one release while it deploys another.
  */
  lemma EqualNumbersOtherRelease(a: string, b: string, log: seq<string>, declared: Section -> bool)
    requires a != "" && b != "" && AllDigits(a) && AllDigits(b) && SectionsFrom(log, 0) == []
    ensures var app, image := a + (['-'] + b), ['v'] + (a + (['.'] + b));
            Consistent(Some(app), image, log, {WithV(app), image}, declared) && WithV(app) != image
  {
    var app, tail := a + (['-'] + b), a + (['.'] + b);
    var image := ['v'] + tail;
    TwoNumbers(a, '-', b);
    TwoNumbers(a, '.', b);
    SkipSeparator('v', tail);
    assert app[0] == a[0];
    assert WithV(app) == ['v'] + app;
    assert WithV(app)[|a| + 1] == '-' && image[|a| + 1] == '.';
  }

  lemma NextNumber(digits: string, rest: string)
    requires digits != "" && AllDigits(digits) && (rest == "" || !IsDigit(rest[0]))
    ensures ParseVersion(digits + rest) == [Value(digits)] + ParseVersion(rest)
  {
    DigitRunStops(digits, rest);
    var s := digits + rest;
    assert s[..|digits|] == digits && s[|digits|..] == rest;
  }

  lemma WithVKeepsNumbers(app: string)
    ensures ParseVersion(WithV(app)) == ParseVersion(app)
  {
    if !HasPrefix(app, "v") {
      assert WithV(app)[1..] == app;
    }
  }

  ghost predicate NumbersIdentify(tags: set<string>) {
    forall s, t | s in tags && t in tags && ParseVersion(s) == ParseVersion(t) :: s == t
  }

  ghost predicate DeploysWhatItAdvertises(log: seq<string>, tags: set<string>, declared: Section -> bool) {
    forall app, image | app != "" && Consistent(Some(app), image, log, tags, declared) :: image == WithV(app)
  }

  /** Every chart that passes deploys the tag it advertises exactly when tags with equal numbers are equal. */
  lemma SameReleaseExactly(log: seq<string>, tags: set<string>, declared: Section -> bool)
    requires SectionsOk(SectionsFrom(log, 0), tags, declared) && forall t | t in tags :: HasPrefix(t, "v")
    ensures DeploysWhatItAdvertises(log, tags, declared) <==> NumbersIdentify(tags)
  {
    if NumbersIdentify(tags) {
      forall app, image | app != "" && Consistent(Some(app), image, log, tags, declared)
        ensures image == WithV(app)
      {
        WithVKeepsNumbers(app);
      }
    }
    if DeploysWhatItAdvertises(log, tags, declared) {
      forall s, t | s in tags && t in tags && ParseVersion(s) == ParseVersion(t) ensures s == t {
        assert s != "" && t != "" && WithV(s) == s;
        assert Consistent(Some(s), t, log, tags, declared);
      }
    }
  }

  /** A blank appVersion: every chart whose other claims hold passes without advertising anything. */
  lemma BlankVersionPasses(image: string, log: seq<string>, tags: set<string>, declared: Section -> bool)
    requires image != "" && image in tags && SectionsOk(SectionsFrom(log, 0), tags, declared)
    ensures Consistent(Some(""), image, log, tags, declared)
    ensures ParseVersion(image) != [] ==> !Advertises("", image, tags)
  {
  }

  /**
  Passing means that the version is released and equal to the image tag exactly when the value
  is not blank, or the image tag is without numbers and a bare "v" is a tag.
  */
  lemma AdvertisesExactly(app: string, image: string, log: seq<string>, tags: set<string>, declared: Section -> bool)
    requires Consistent(Some(app), image, log, tags, declared)
    ensures Advertises(app, image, tags) <==> app != "" || (ParseVersion(image) == [] && "v" in tags)
    ensures Advertises(app, image, tags) ==>
              && ParseVersion(app) == ParseVersion(image)
              && (if app != "" && app[0] == 'v' then app else "v" + app) in tags
  {
    assert WithV("") == "v";
    assert HasPrefix(app, "v") <==> app != "" && app[0] == 'v';
  }
}
