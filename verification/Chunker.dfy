/** `TextChunker` of rag/documents/chunker.py: split, greedy merge, overlap, offset recovery. */
module TextChunking {
  import opened Wrappers
  import opened Sequences

  datatype Config = Config(chunkSize: int, chunkOverlap: int, separator: string)

  datatype Chunk = Chunk(content: string, index: nat, start: nat, end: nat)

  // ---------------------------------------------------------------------------
  // Python string operations
  // ---------------------------------------------------------------------------

  predicate Matches(text: string, pattern: string, i: nat) {
    i + |pattern| <= |text| && text[i..i + |pattern|] == pattern
  }

  /** `text.find(pattern, from)`. */
  function FindFrom(text: string, pattern: string, from: nat): Option<nat>
    decreases |text| - from
  {
    if from + |pattern| > |text| then None
    else if Matches(text, pattern, from) then Some(from)
    else FindFrom(text, pattern, from + 1)
  }

  /** The result is the first match at or after `from`. */
  lemma {:induction false} FindsFirst(text: string, pattern: string, from: nat)
    ensures
      match FindFrom(text, pattern, from)
      case Some(r) => from <= r && Matches(text, pattern, r) && forall i :: from <= i < r ==> !Matches(text, pattern, i)
      case None => forall i :: from <= i ==> !Matches(text, pattern, i)
    decreases |text| - from
  {
    if from + |pattern| <= |text| && !Matches(text, pattern, from) {
      FindsFirst(text, pattern, from + 1);
    }
  }

  /** `text.split(sep)`. */
  function Split(text: string, sep: string): (parts: seq<string>)
    requires sep != ""
    ensures parts != []
    decreases |text|
  {
    FindsFirst(text, sep, 0);
    match FindFrom(text, sep, 0)
    case None => [text]
    case Some(i) => [text[..i]] + Split(text[i + |sep|..], sep)
  }

  function Join(parts: seq<string>, sep: string): string {
    if parts == [] then ""
    else if |parts| == 1 then parts[0]
    else Join(parts[..|parts| - 1], sep) + sep + parts[|parts| - 1]
  }

  /** Python's `str.isspace` characters. */
  predicate IsSpace(c: char) {
    || '\t' <= c <= '\r' || '\U{1c}' <= c <= ' ' || c == '\U{85}' || c == '\U{a0}' || c == '\U{1680}'
    || '\U{2000}' <= c <= '\U{200a}' || c == '\U{2028}' || c == '\U{2029}' || c == '\U{202f}'
    || c == '\U{205f}' || c == '\U{3000}'
  }

  predicate Blank(part: string) {
    forall i :: 0 <= i < |part| ==> IsSpace(part[i])
  }

  /** `_split_by_separator` keeps the parts that are not blank. */
  function NonBlank(parts: seq<string>): (kept: seq<string>)
    ensures forall p :: p in kept ==> !Blank(p)
    ensures (forall p :: p in parts ==> !Blank(p)) ==> kept == parts
    ensures |kept| <= |parts|
  {
    if parts == [] then []
    else
      var last := parts[|parts| - 1];
      var front := NonBlank(parts[..|parts| - 1]);
      assert parts == parts[..|parts| - 1] + [last];
      if Blank(last) then front else front + [last]
  }

  /** The characters that Python strips: its Unicode white space, one by one. */
  const WHITE_SPACE := "\t\n\U{0b}\U{0c}\r\U{1c}\U{1d}\U{1e}\U{1f} \U{85}\U{a0}\U{1680}\U{2000}\U{2001}\U{2002}\U{2003}"
                       + "\U{2004}\U{2005}\U{2006}\U{2007}\U{2008}\U{2009}\U{200a}\U{2028}\U{2029}\U{202f}\U{205f}\U{3000}"

  lemma SpaceIsWhite(c: char)
    ensures IsSpace(c) <==> c in WHITE_SPACE
  {
  }

  lemma BlankIsWhite(part: string)
    ensures Blank(part) <==> forall i :: 0 <= i < |part| ==> part[i] in WHITE_SPACE
  {
    forall i | 0 <= i < |part| ensures IsSpace(part[i]) <==> part[i] in WHITE_SPACE {
      SpaceIsWhite(part[i]);
    }
  }

  /** Dropping blank parts works part by part and keeps the order. */
  lemma {:induction false} NonBlankConcat(a: seq<string>, b: seq<string>)
    ensures NonBlank(a + b) == NonBlank(a) + NonBlank(b)
  {
    if b == [] {
      assert a + b == a;
    } else {
      NonBlankConcat(a, b[..|b| - 1]);
      assert (a + b)[..|a + b| - 1] == a + b[..|b| - 1];
    }
  }

  /** A part on its own is kept exactly when it has a character that is not white space. */
  lemma NonBlankOne(part: string)
    ensures NonBlank([part]) == if exists i :: 0 <= i < |part| && part[i] !in WHITE_SPACE then [part] else []
  {
    BlankIsWhite(part);
    assert [part][..0] == [];
  }

  // ---------------------------------------------------------------------------
  // Joining
  // ---------------------------------------------------------------------------

  lemma Reassociate(a: string, b: string, c: string, d: string)
    ensures a + b + c + d == a + (b + c + d)
  {
  }

  lemma JoinSnoc(parts: seq<string>, last: string, sep: string)
    requires parts != []
    ensures Join(parts + [last], sep) == Join(parts, sep) + sep + last
  {
  }

  lemma {:induction false} JoinConcat(a: seq<string>, b: seq<string>, sep: string)
    requires a != [] && b != []
    ensures Join(a + b, sep) == Join(a, sep) + sep + Join(b, sep)
  {
    var front, last := b[..|b| - 1], b[|b| - 1];
    assert b == front + [last];
    if front == [] {
      assert b == [last];
      JoinSnoc(a, last, sep);
    } else {
      JoinConcat(a, front, sep);
      assert a + b == (a + front) + [last];
      JoinSnoc(a + front, last, sep);
      JoinSnoc(front, last, sep);
      Reassociate(Join(a, sep) + sep, Join(front, sep), sep, last);
    }
  }

  /** Splitting loses nothing. */
  lemma {:induction false} SplitJoin(text: string, sep: string)
    requires sep != ""
    ensures Join(Split(text, sep), sep) == text
    decreases |text|
  {
    FindsFirst(text, sep, 0);
    match FindFrom(text, sep, 0)
    case None =>
    case Some(i) =>
      var rest := text[i + |sep|..];
      SplitJoin(rest, sep);
      JoinConcat([text[..i]], Split(rest, sep), sep);
      assert text == text[..i] + sep + rest;
  }

  // ---------------------------------------------------------------------------
  // Where a split cuts
  // ---------------------------------------------------------------------------

  /** No match of the separator begins in [from, to). */
  ghost predicate Unmatched(text: string, sep: string, from: nat, to: nat) {
    forall i: nat :: from <= i < to ==> !Matches(text, sep, i)
  }

  /** A part is text up to the first match from where it begins; the last part is the rest, in which nothing matches. */
  ghost predicate CutAt(text: string, sep: string, from: nat, part: string, last: bool) {
    var to := from + |part|;
    && to <= |text| && text[from..to] == part && Unmatched(text, sep, from, to)
    && if last then to == |text| && !Matches(text, sep, to) else Matches(text, sep, to)
  }

  /** `parts` are what cutting the text at every match, from left to right, leaves of it from `from` on. */
  ghost predicate IsSplit(text: string, sep: string, from: nat, parts: seq<string>)
    decreases |parts|
  {
    && parts != []
    && CutAt(text, sep, from, parts[0], |parts| == 1)
    && (|parts| > 1 ==> IsSplit(text, sep, from + |parts[0]| + |sep|, parts[1..]))
  }

  lemma MatchShifts(text: string, sep: string, cut: nat, i: nat)
    requires cut <= |text|
    ensures Matches(text[cut..], sep, i) <==> Matches(text, sep, cut + i)
  {
    if cut + i + |sep| <= |text| {
      assert text[cut..][i..i + |sep|] == text[cut + i..cut + i + |sep|];
    }
  }

  lemma CutShifts(text: string, sep: string, cut: nat, from: nat, part: string, last: bool)
    requires cut <= |text| && CutAt(text[cut..], sep, from, part, last)
    ensures CutAt(text, sep, cut + from, part, last)
  {
    var to := from + |part|;
    assert text[cut..][from..to] == text[cut + from..cut + to];
    MatchShifts(text, sep, cut, to);
    forall i: nat | cut + from <= i < cut + to ensures !Matches(text, sep, i) {
      MatchShifts(text, sep, cut, i - cut);
    }
  }

  lemma {:induction false} SplitShifts(text: string, sep: string, cut: nat, from: nat, parts: seq<string>)
    requires cut <= |text| && IsSplit(text[cut..], sep, from, parts)
    ensures IsSplit(text, sep, cut + from, parts)
    decreases |parts|
  {
    CutShifts(text, sep, cut, from, parts[0], |parts| == 1);
    if |parts| > 1 {
      SplitShifts(text, sep, cut, from + |parts[0]| + |sep|, parts[1..]);
    }
  }

  /** `Split` cuts at every first match, and nowhere else. */
  lemma {:induction false} SplitCuts(text: string, sep: string)
    requires sep != ""
    ensures IsSplit(text, sep, 0, Split(text, sep))
    decreases |text|
  {
    FindsFirst(text, sep, 0);
    match FindFrom(text, sep, 0)
    case None => assert text[0..|text|] == text;
    case Some(i) =>
      var rest := Split(text[i + |sep|..], sep);
      SplitCuts(text[i + |sep|..], sep);
      SplitShifts(text, sep, i + |sep|, 0, rest);
      assert ([text[..i]] + rest)[1..] == rest;
      assert text[0..i] == text[..i];
  }

  lemma SameCut(text: string, sep: string, from: nat, p: string, pLast: bool, q: string, qLast: bool)
    requires sep != "" && CutAt(text, sep, from, p, pLast) && CutAt(text, sep, from, q, qLast)
    ensures p == q && pLast == qLast
  {
    if |p| < |q| {
      assert false;
    } else if |q| < |p| {
      assert false;
    }
  }

  /** A text has one split only. */
  lemma {:induction false} SplitIsUnique(text: string, sep: string, from: nat, a: seq<string>, b: seq<string>)
    requires sep != "" && IsSplit(text, sep, from, a) && IsSplit(text, sep, from, b)
    ensures a == b
    decreases |a|
  {
    SameCut(text, sep, from, a[0], |a| == 1, b[0], |b| == 1);
    if |a| > 1 {
      SplitIsUnique(text, sep, from + |a[0]| + |sep|, a[1..], b[1..]);
    }
    assert a == [a[0]] + a[1..] && b == [b[0]] + b[1..];
  }

  ghost predicate Contains(text: string, sep: string) {
    exists before, after :: text == before + sep + after
  }

  lemma MatchInside(text: string, sep: string, from: nat, to: nat, i: nat)
    requires from <= to <= |text| && Matches(text[from..to], sep, i)
    ensures from + i + |sep| <= to && Matches(text, sep, from + i)
  {
    var inner := text[from..to];
    assert i + |sep| <= |inner|;
    forall j | 0 <= j < |sep| ensures text[from + i..from + i + |sep|][j] == sep[j] {
      assert inner[i..i + |sep|][j] == inner[i + j];
    }
    assert text[from + i..from + i + |sep|] == sep;
  }

  lemma CutIsFree(text: string, sep: string, from: nat, part: string, last: bool)
    requires sep != "" && CutAt(text, sep, from, part, last)
    ensures !Contains(part, sep)
  {
    if before, after :| part == before + sep + after {
      MiddleMatches(before, sep, after);
      MatchInside(text, sep, from, from + |part|, |before|);
      assert false;
    }
  }

  /** No part of a split contains the separator. */
  lemma {:induction false} PartsAreFree(text: string, sep: string, from: nat, parts: seq<string>)
    requires sep != "" && IsSplit(text, sep, from, parts)
    ensures forall part :: part in parts ==> !Contains(part, sep)
    decreases |parts|
  {
    CutIsFree(text, sep, from, parts[0], |parts| == 1);
    if |parts| > 1 {
      PartsAreFree(text, sep, from + |parts[0]| + |sep|, parts[1..]);
    }
    assert parts == [parts[0]] + parts[1..];
  }

  ghost function Weight(parts: seq<string>, sep: string): nat {
    if parts == [] then 0
    else Weight(parts[..|parts| - 1], sep) + |parts[|parts| - 1]| + |sep|
  }

  lemma {:induction false} JoinLength(parts: seq<string>, sep: string)
    ensures |Join(parts, sep)| == if parts == [] then 0 else Weight(parts, sep) - |sep|
  {
    if |parts| > 1 {
      JoinLength(parts[..|parts| - 1], sep);
    }
  }

  lemma {:induction false} DroppingShortens(parts: seq<string>, sep: string)
    ensures Weight(NonBlank(parts), sep) <= Weight(parts, sep)
    ensures (exists p :: p in parts && Blank(p)) ==> Weight(NonBlank(parts), sep) + |sep| <= Weight(parts, sep)
  {
    if parts != [] {
      var front, last := parts[..|parts| - 1], parts[|parts| - 1];
      DroppingShortens(front, sep);
      assert parts == front + [last];
      var kept := NonBlank(front);
      if !Blank(last) {
        assert NonBlank(parts) == kept + [last];
        assert (kept + [last])[..|kept|] == kept;
        if p :| p in parts && Blank(p) {
          assert p in front;
        }
      }
    }
  }

  /** Joining the kept segments gives the text back exactly when no blank part was dropped. */
  lemma SegmentsRoundTrip(text: string, sep: string)
    requires sep != "" && text != ""
    ensures Join(NonBlank(Split(text, sep)), sep) == text <==> forall p :: p in Split(text, sep) ==> !Blank(p)
  {
    var parts := Split(text, sep);
    var kept := NonBlank(parts);
    SplitJoin(text, sep);
    if exists p :: p in parts && Blank(p) {
      DroppingShortens(parts, sep);
      JoinLength(parts, sep);
      JoinLength(kept, sep);
      assert |Join(kept, sep)| < |text|;
    }
  }

  // ---------------------------------------------------------------------------
  // Groupings of the segment list
  // ---------------------------------------------------------------------------

  ghost function Flatten(groups: seq<seq<string>>): seq<string> {
    if groups == [] then [] else Flatten(groups[..|groups| - 1]) + groups[|groups| - 1]
  }

  function JoinEach(groups: seq<seq<string>>, sep: string): (blocks: seq<string>)
    ensures |blocks| == |groups|
    ensures forall i :: 0 <= i < |groups| ==> blocks[i] == Join(groups[i], sep)
  {
    seq(|groups|, i requires 0 <= i < |groups| => Join(groups[i], sep))
  }

  /** A group is one segment, however long, or several that fit together. */
  ghost predicate Fits(cfg: Config, group: seq<string>) {
    |group| == 1 || (|group| > 1 && |Join(group, cfg.separator)| <= cfg.chunkSize)
  }

  ghost predicate IsGrouping(cfg: Config, segments: seq<string>, groups: seq<seq<string>>) {
    Flatten(groups) == segments && forall i :: 0 <= i < |groups| ==> Fits(cfg, groups[i])
  }

  /** No group but the last could have taken one more segment. */
  ghost predicate Maximal(cfg: Config, groups: seq<seq<string>>) {
    forall i :: 0 < i < |groups| ==> groups[i] != [] && !Fits(cfg, groups[i - 1] + [groups[i][0]])
  }

  lemma {:induction false} JoinSuffixShorter(group: seq<string>, k: nat, sep: string)
    requires k < |group|
    ensures |Join(group[k..], sep)| <= |Join(group, sep)|
  {
    if k == |group| - 1 {
      assert group[k..] == [group[k]];
    } else {
      var front := group[..|group| - 1];
      JoinSuffixShorter(front, k, sep);
      assert group[k..][..|group| - k - 1] == front[k..];
    }
  }

  /** `groups` needs at least `n` groups, and its n-th is no shorter than `m` when n suffice. */
  ghost predicate NoBetter(groups: seq<seq<string>>, n: nat, m: nat) {
    |groups| > n || (|groups| == n > 0 && |groups[n - 1]| >= m)
  }

  /** Greedy stays ahead: no grouping of `segments` beats n groups with a last group of m. */
  ghost predicate StaysAhead(cfg: Config, segments: seq<string>, n: nat, m: nat) {
    forall groups :: IsGrouping(cfg, segments, groups) ==> NoBetter(groups, n, m)
  }

  /** A grouping of a longer list yields one of the shorter list. */
  ghost function Shorten(groups: seq<seq<string>>): seq<seq<string>>
    requires groups != [] && groups[|groups| - 1] != []
  {
    var last := groups[|groups| - 1];
    if |last| == 1 then groups[..|groups| - 1]
    else groups[..|groups| - 1] + [last[..|last| - 1]]
  }

  lemma ShortenGroups(cfg: Config, segments: seq<string>, seg: string, groups: seq<seq<string>>)
    requires IsGrouping(cfg, segments + [seg], groups)
    ensures groups != [] && groups[|groups| - 1] != [] && groups[|groups| - 1][|groups[|groups| - 1]| - 1] == seg
    ensures IsGrouping(cfg, segments, Shorten(groups))
  {
    assert groups != [] && Fits(cfg, groups[|groups| - 1]);
    var front, last := groups[..|groups| - 1], groups[|groups| - 1];
    var all := segments + [seg];
    assert all == Flatten(front) + last;
    assert all[|all| - 1] == last[|last| - 1];
    var shorter := Shorten(groups);
    if |last| == 1 {
      assert segments == all[..|all| - 1] == Flatten(front);
    } else {
      var rest := last[..|last| - 1];
      assert shorter[..|shorter| - 1] == front;
      assert segments == all[..|all| - 1] == Flatten(front) + rest;
      assert Fits(cfg, rest);
    }
  }

  lemma AheadWhenExtending(cfg: Config, segments: seq<string>, seg: string, n: nat, m: nat)
    requires StaysAhead(cfg, segments, n, m) && n > 0
    ensures StaysAhead(cfg, segments + [seg], n, m + 1)
  {
    forall groups | IsGrouping(cfg, segments + [seg], groups) ensures NoBetter(groups, n, m + 1) {
      ShortenGroups(cfg, segments, seg, groups);
      assert NoBetter(Shorten(groups), n, m);
    }
  }

  lemma AheadWhenStarting(cfg: Config, segments: seq<string>, seg: string, n: nat, current: seq<string>)
    requires StaysAhead(cfg, segments, n, |current|) && n > 0 && current != []
    requires |current| <= |segments| && segments[|segments| - |current|..] == current
    requires !Fits(cfg, current + [seg])
    ensures StaysAhead(cfg, segments + [seg], n + 1, 1)
  {
    forall groups | IsGrouping(cfg, segments + [seg], groups) ensures NoBetter(groups, n + 1, 1) {
      ShortenGroups(cfg, segments, seg, groups);
      assert NoBetter(Shorten(groups), n, |current|);
      LastGroupIsShort(cfg, segments, seg, groups, current);
    }
  }

  /** A last group cannot contain the current group and the next segment. */
  lemma LastGroupIsShort(cfg: Config, segments: seq<string>, seg: string, groups: seq<seq<string>>, current: seq<string>)
    requires IsGrouping(cfg, segments + [seg], groups) && current != [] && !Fits(cfg, current + [seg])
    requires |current| <= |segments| && segments[|segments| - |current|..] == current
    requires groups != []
    ensures |groups[|groups| - 1]| <= |current|
  {
    var last := groups[|groups| - 1];
    assert Fits(cfg, last);
    if |last| > |current| {
      var all := segments + [seg];
      assert all == Flatten(groups[..|groups| - 1]) + last;
      var k := |last| - |current| - 1;
      assert last[k..] == all[|all| - |current| - 1..] == current + [seg];
      JoinSuffixShorter(last, k, cfg.separator);
      assert false;
    }
  }

  // ---------------------------------------------------------------------------
  // _merge_segments
  // ---------------------------------------------------------------------------

  /** The loop state: `groups` are closed, `group` is the one being filled. */
  ghost predicate Merging(cfg: Config, segments: seq<string>, groups: seq<seq<string>>, group: seq<string>) {
    && IsGrouping(cfg, segments, groups + [group])
    && Maximal(cfg, groups + [group])
    && StaysAhead(cfg, segments, |groups| + 1, |group|)
  }

  lemma MergingExtends(cfg: Config, segments: seq<string>, seg: string, groups: seq<seq<string>>, group: seq<string>)
    requires Merging(cfg, segments, groups, group) && Fits(cfg, group + [seg])
    ensures Merging(cfg, segments + [seg], groups, group + [seg])
  {
    var before, after := groups + [group], groups + [group + [seg]];
    AheadWhenExtending(cfg, segments, seg, |groups| + 1, |group|);
    assert before[|groups|] == group && Fits(cfg, group);
    ExtendKeepsMaximal(cfg, groups, group, seg);
    assert before[..|groups|] == groups && after[..|groups|] == groups;
    assert Flatten(after) == Flatten(groups) + (group + [seg]) == segments + [seg];
    forall i | 0 <= i < |after| ensures Fits(cfg, after[i]) {
      assert i < |groups| ==> after[i] == before[i];
    }
  }

  lemma MergingStarts(cfg: Config, segments: seq<string>, seg: string, groups: seq<seq<string>>, group: seq<string>)
    requires Merging(cfg, segments, groups, group) && !Fits(cfg, group + [seg])
    ensures Merging(cfg, segments + [seg], groups + [group], [seg])
  {
    var before := groups + [group];
    var after := before + [[seg]];
    assert before[|groups|] == group && Fits(cfg, group);
    assert before[..|groups|] == groups && after[..|before|] == before;
    assert segments == Flatten(groups) + group;
    AheadWhenStarting(cfg, segments, seg, |groups| + 1, group);
    assert Flatten(after) == segments + [seg];
    forall i | 0 < i < |after| ensures after[i] != [] && !Fits(cfg, after[i - 1] + [after[i][0]]) {
      if i < |before| {
        assert after[i] == before[i] && after[i - 1] == before[i - 1];
      } else {
        assert after[i] == [seg] && after[i - 1] == group;
      }
    }
  }

  lemma MergingIsOptimal(cfg: Config, segments: seq<string>, groups: seq<seq<string>>, group: seq<string>)
    requires Merging(cfg, segments, groups, group)
    ensures forall other :: IsGrouping(cfg, segments, other) ==> |groups| + 1 <= |other|
  {
  }

  /** The blocks are a grouping of the segments with the fewest groups possible. */
  method MergeSegments(cfg: Config, segments: seq<string>) returns (merged: seq<string>, ghost groups: seq<seq<string>>)
    ensures merged == JoinEach(groups, cfg.separator)
    ensures IsGrouping(cfg, segments, groups) && Maximal(cfg, groups)
    ensures forall other :: IsGrouping(cfg, segments, other) ==> |merged| <= |other|
  {
    if segments == [] {
      return [], [];
    }
    var sep := cfg.separator;
    merged, groups := [], [];
    var current := segments[0];
    ghost var group := [segments[0]];
    MergingBegins(cfg, segments[0]);
    assert segments[..1] == [segments[0]];
    for i := 1 to |segments|
      invariant merged == JoinEach(groups, sep) && current == Join(group, sep) && group != []
      invariant Merging(cfg, segments[..i], groups, group)
    {
      var seg := segments[i];
      assert segments[..i + 1] == segments[..i] + [seg];
      var candidate := current + sep + seg;
      assert (group + [seg])[..|group|] == group;
      assert candidate == Join(group + [seg], sep);
      if |candidate| <= cfg.chunkSize {
        MergingExtends(cfg, segments[..i], seg, groups, group);
        current := candidate;
        group := group + [seg];
      } else {
        MergingStarts(cfg, segments[..i], seg, groups, group);
        merged := merged + [current];
        groups := groups + [group];
        current := seg;
        group := [seg];
      }
    }
    assert segments[..|segments|] == segments;
    MergingIsOptimal(cfg, segments, groups, group);
    merged := merged + [current];
    groups := groups + [group];
  }

  lemma MergingBegins(cfg: Config, seg: string)
    ensures Merging(cfg, [seg], [], [seg])
  {
    FirstAhead(cfg, seg);
    var groups := [] + [[seg]];
    assert groups[..0] == [];
    assert Flatten(groups) == Flatten([]) + [seg];
  }

  lemma FirstAhead(cfg: Config, seg: string)
    ensures StaysAhead(cfg, [seg], 1, 1)
  {
  }

  lemma ExtendKeepsMaximal(cfg: Config, groups: seq<seq<string>>, group: seq<string>, seg: string)
    requires Maximal(cfg, groups + [group]) && group != []
    ensures Maximal(cfg, groups + [group + [seg]])
  {
    var before, after := groups + [group], groups + [group + [seg]];
    forall i | 0 < i < |after| ensures after[i] != [] && !Fits(cfg, after[i - 1] + [after[i][0]]) {
      assert before[i] != [] && !Fits(cfg, before[i - 1] + [before[i][0]]);
    }
  }

  /** Joining the blocks is joining the segments. */
  lemma {:induction false} BlocksJoin(groups: seq<seq<string>>, sep: string)
    requires forall i :: 0 <= i < |groups| ==> groups[i] != []
    ensures Join(JoinEach(groups, sep), sep) == Join(Flatten(groups), sep)
    ensures groups != [] ==> Flatten(groups) != []
  {
    if |groups| == 1 {
      assert Flatten(groups[..0]) == [];
      assert Flatten(groups) == groups[0];
    } else if groups != [] {
      var front, last := groups[..|groups| - 1], groups[|groups| - 1];
      BlocksJoin(front, sep);
      JoinConcat(Flatten(front), last, sep);
      assert JoinEach(groups, sep)[..|front|] == JoinEach(front, sep);
    }
  }

  // ---------------------------------------------------------------------------
  // _build_chunks
  // ---------------------------------------------------------------------------

  /** `content[-overlap:] if overlap else ""`, with Python's slice clamping. */
  function Tail(content: string, overlap: int): string {
    if overlap == 0 then ""
    else if overlap >= |content| then content
    else if overlap > 0 then content[|content| - overlap..]
    else if -overlap >= |content| then ""
    else content[-overlap..]
  }

  function WithOverlap(cfg: Config, tail: string, block: string): string {
    if tail != "" && |tail| + |block| <= cfg.chunkSize then tail + block else block
  }

  /** Where the search for the next block begins after a chunk that ends at `end`. */
  function SearchAfter(cfg: Config, end: nat): nat {
    if end - cfg.chunkOverlap < 0 then 0 else end - cfg.chunkOverlap
  }

  function SearchStart(cfg: Config, chunks: seq<Chunk>): nat {
    if chunks == [] then 0 else SearchAfter(cfg, chunks[|chunks| - 1].end)
  }

  function PreviousTail(cfg: Config, chunks: seq<Chunk>): string {
    if chunks == [] then "" else Tail(chunks[|chunks| - 1].content, cfg.chunkOverlap)
  }

  function PreviousEnd(chunks: seq<Chunk>): nat {
    if chunks == [] then 0 else chunks[|chunks| - 1].end
  }

  /** `chunk` is what the loop makes of `block` once `chunks` exist. */
  ghost predicate Follows(cfg: Config, text: string, chunks: seq<Chunk>, block: string, chunk: Chunk) {
    && chunk.index == |chunks|
    && chunk.content == WithOverlap(cfg, PreviousTail(cfg, chunks), block)
    && chunk.end == chunk.start + |block|
    && match FindFrom(text, block, SearchStart(cfg, chunks))
       case Some(i) => chunk.start == i
       case None => chunk.start == PreviousEnd(chunks)
  }

  ghost predicate BuiltFrom(cfg: Config, text: string, blocks: seq<string>, chunks: seq<Chunk>) {
    if blocks == [] || chunks == [] then blocks == [] && chunks == []
    else
      && BuiltFrom(cfg, text, blocks[..|blocks| - 1], chunks[..|chunks| - 1])
      && Follows(cfg, text, chunks[..|chunks| - 1], blocks[|blocks| - 1], chunks[|chunks| - 1])
  }

  lemma {:induction false} BuiltAt(cfg: Config, text: string, blocks: seq<string>, chunks: seq<Chunk>, i: nat)
    requires BuiltFrom(cfg, text, blocks, chunks) && i < |blocks|
    ensures |chunks| == |blocks| && Follows(cfg, text, chunks[..i], blocks[i], chunks[i])
  {
    var blocks', chunks' := blocks[..|blocks| - 1], chunks[..|chunks| - 1];
    if i < |blocks'| {
      BuiltAt(cfg, text, blocks', chunks', i);
      assert chunks'[..i] == chunks[..i];
    } else if i > 0 {
      BuiltAt(cfg, text, blocks', chunks', i - 1);
    }
  }

  lemma BuiltSnoc(cfg: Config, text: string, blocks: seq<string>, chunks: seq<Chunk>, block: string, chunk: Chunk)
    requires BuiltFrom(cfg, text, blocks, chunks) && Follows(cfg, text, chunks, block, chunk)
    ensures BuiltFrom(cfg, text, blocks + [block], chunks + [chunk])
  {
  }

  method BuildChunks(cfg: Config, merged: seq<string>, text: string) returns (chunks: seq<Chunk>)
    ensures BuiltFrom(cfg, text, merged, chunks) && |chunks| == |merged|
  {
    var prevOverlap := "";
    chunks := [];
    var searchStart := 0;
    Prefixes(merged);
    for index := 0 to |merged|
      invariant BuiltFrom(cfg, text, merged[..index], chunks) && |chunks| == index
      invariant searchStart == SearchStart(cfg, chunks)
      invariant prevOverlap == PreviousTail(cfg, chunks)
    {
      chunks, searchStart, prevOverlap :=
        AddChunk(cfg, text, merged[..index], chunks, merged[index], searchStart, prevOverlap);
    }
  }

  /** Content and offsets of the next chunk, with the end of the previous chunk as fallback. */
  method NextChunk(cfg: Config, text: string, chunks: seq<Chunk>, block: string, searchStart: nat, prevOverlap: string)
    returns (chunk: Chunk)
    requires searchStart == SearchStart(cfg, chunks) && prevOverlap == PreviousTail(cfg, chunks)
    ensures Follows(cfg, text, chunks, block, chunk)
  {
    var content := if prevOverlap != "" && |prevOverlap| + |block| <= cfg.chunkSize then prevOverlap + block else block;
    var found := FindFrom(text, block, searchStart);
    var start := if found.Some? then found.value else if chunks != [] then chunks[|chunks| - 1].end else 0;
    chunk := Chunk(content, |chunks|, start, start + |block|);
  }

  /** One iteration of the loop. */
  method AddChunk(cfg: Config, text: string, ghost done: seq<string>, chunks0: seq<Chunk>, block: string,
                  searchStart0: nat, prevOverlap0: string)
    returns (chunks: seq<Chunk>, searchStart: nat, prevOverlap: string)
    requires BuiltFrom(cfg, text, done, chunks0)
    requires searchStart0 == SearchStart(cfg, chunks0) && prevOverlap0 == PreviousTail(cfg, chunks0)
    ensures BuiltFrom(cfg, text, done + [block], chunks) && |chunks| == |chunks0| + 1
    ensures searchStart == SearchStart(cfg, chunks) && prevOverlap == PreviousTail(cfg, chunks)
  {
    var chunk := NextChunk(cfg, text, chunks0, block, searchStart0, prevOverlap0);
    BuiltSnoc(cfg, text, done, chunks0, block, chunk);
    chunks := chunks0 + [chunk];
    searchStart := SearchAfter(cfg, chunk.end);
    prevOverlap := Tail(chunk.content, cfg.chunkOverlap);
  }

  /** The position of a block in the text the blocks join to. */
  ghost function TruePosition(blocks: seq<string>, i: nat, sep: string): nat
    requires i < |blocks|
  {
    if i == 0 then 0 else |Join(blocks[..i], sep)| + |sep|
  }

  lemma MiddleMatches(a: string, b: string, c: string)
    ensures Matches(a + b + c, b, |a|)
  {
  }

  lemma NextPosition(blocks: seq<string>, i: nat, sep: string)
    requires i + 1 < |blocks|
    ensures TruePosition(blocks, i + 1, sep) == TruePosition(blocks, i, sep) + |blocks[i]| + |sep|
  {
    assert blocks[..i + 1][..i] == blocks[..i];
  }

  lemma BlockAtPosition(blocks: seq<string>, i: nat, sep: string)
    requires i < |blocks|
    ensures Matches(Join(blocks, sep), blocks[i], TruePosition(blocks, i, sep))
  {
    var after := JoinAround(blocks, i, sep);
    MiddleMatches(TextBefore(blocks, i, sep), blocks[i], after);
  }

  ghost function TextBefore(blocks: seq<string>, i: nat, sep: string): string
    requires i < |blocks|
  {
    if i == 0 then "" else Join(blocks[..i], sep) + sep
  }

  lemma JoinUpTo(blocks: seq<string>, i: nat, sep: string)
    requires i < |blocks|
    ensures Join(blocks[..i + 1], sep) == TextBefore(blocks, i, sep) + blocks[i]
  {
    assert blocks[..i + 1][..i] == blocks[..i];
  }

  lemma JoinAround(blocks: seq<string>, i: nat, sep: string) returns (after: string)
    requires i < |blocks|
    ensures Join(blocks, sep) == TextBefore(blocks, i, sep) + blocks[i] + after
  {
    JoinUpTo(blocks, i, sep);
    if i + 1 < |blocks| {
      assert blocks[..i + 1] + blocks[i + 1..] == blocks;
      JoinConcat(blocks[..i + 1], blocks[i + 1..], sep);
      after := sep + Join(blocks[i + 1..], sep);
      Reassociate(TextBefore(blocks, i, sep) + blocks[i], "", sep, Join(blocks[i + 1..], sep));
    } else {
      assert blocks[..i + 1] == blocks;
      after := "";
    }
  }

  /** The chunk's [start, end) slice of the text is its block. */
  ghost predicate SlicesTo(text: string, chunk: Chunk, block: string) {
    chunk.start <= chunk.end <= |text| && text[chunk.start..chunk.end] == block
  }

  ghost predicate OccursFrom(text: string, block: string, from: nat) {
    exists i :: from <= i && Matches(text, block, i)
  }

  /** Where a chunk is placed: the search starts `chunkOverlap` before the end of the previous chunk, but not before 0. */
  ghost predicate Placed(cfg: Config, text: string, blocks: seq<string>, chunks: seq<Chunk>, i: nat)
    requires i < |blocks| == |chunks|
  {
    var chunk, fallback := chunks[i], if i == 0 then 0 else chunks[i - 1].end;
    var from := if i == 0 || chunks[i - 1].end - cfg.chunkOverlap < 0 then 0 else chunks[i - 1].end - cfg.chunkOverlap;
    && chunk.index == i && chunk.end == chunk.start + |blocks[i]|
    && StartsWell(text, blocks[i], from, fallback, chunk)
    && (cfg.chunkOverlap >= 0 ==> (SlicesTo(text, chunk, blocks[i]) <==> OccursFrom(text, blocks[i], from)))
  }

  /**
   For every text and every list of blocks: a chunk starts at the first occurrence of its
   block from the search start on, or where the previous chunk ended when there is none; its
   slice is its block exactly when there is one.
   */
  lemma StartIsFirstOccurrence(cfg: Config, text: string, blocks: seq<string>, chunks: seq<Chunk>, i: nat)
    requires BuiltFrom(cfg, text, blocks, chunks) && i < |blocks|
    ensures |chunks| == |blocks| && Placed(cfg, text, blocks, chunks, i)
  {
    BuiltAt(cfg, text, blocks, chunks, i);
    var before := chunks[..i];
    FirstOrFallback(text, blocks[i], SearchStart(cfg, before), PreviousEnd(before), chunks[i]);
  }

  /** What `content[-overlap:]` leaves of a content: its last characters, or, for a negative overlap, all but its first. */
  ghost predicate IsTail(content: string, overlap: int, tail: string) {
    if overlap == 0 then tail == ""
    else exists head :: content == head + tail &&
           if overlap > 0 then |tail| == Min(overlap, |content|) else |head| == Min(-overlap, |content|)
  }

  /** A chunk's content is its block, after the tail of the previous content when that fits. */
  ghost predicate Overlaps(cfg: Config, blocks: seq<string>, chunks: seq<Chunk>, i: nat)
    requires i < |blocks| == |chunks|
  {
    if i == 0 then chunks[i].content == blocks[i]
    else exists tail :: IsTail(chunks[i - 1].content, cfg.chunkOverlap, tail) &&
           chunks[i].content == if tail != "" && |tail| + |blocks[i]| <= cfg.chunkSize then tail + blocks[i] else blocks[i]
  }

  lemma TailIsTail(content: string, overlap: int)
    ensures IsTail(content, overlap, Tail(content, overlap))
  {
    var tail := Tail(content, overlap);
    if overlap != 0 {
      var head := content[..|content| - |tail|];
      assert content == head + tail;
    }
  }

  lemma ContentOverlaps(cfg: Config, text: string, blocks: seq<string>, chunks: seq<Chunk>, i: nat)
    requires BuiltFrom(cfg, text, blocks, chunks) && i < |blocks|
    ensures |chunks| == |blocks| && Overlaps(cfg, blocks, chunks, i)
  {
    BuiltAt(cfg, text, blocks, chunks, i);
    if i > 0 {
      assert chunks[..i][|chunks[..i]| - 1] == chunks[i - 1];
      TailIsTail(chunks[i - 1].content, cfg.chunkOverlap);
    }
  }

  /** The start is the first occurrence from `from` on, or `fallback` when there is none. */
  ghost predicate StartsWell(text: string, block: string, from: nat, fallback: nat, chunk: Chunk) {
    if OccursFrom(text, block, from)
    then from <= chunk.start && Matches(text, block, chunk.start) && NotBefore(text, block, from, chunk.start)
    else chunk.start == fallback
  }

  ghost predicate NotBefore(text: string, block: string, from: nat, start: nat) {
    forall j :: from <= j < start ==> !Matches(text, block, j)
  }

  lemma FirstOrFallback(text: string, block: string, from: nat, fallback: nat, chunk: Chunk)
    requires chunk.end == chunk.start + |block|
    requires match FindFrom(text, block, from)
             case Some(i) => chunk.start == i
             case None => chunk.start == fallback
    ensures StartsWell(text, block, from, fallback, chunk)
    ensures from <= fallback ==> (SlicesTo(text, chunk, block) <==> OccursFrom(text, block, from))
  {
    FindsFirst(text, block, from);
    assert SlicesTo(text, chunk, block) <==> Matches(text, block, chunk.start);
  }

  /** A block that still lies ahead of the search is found, at or before that place. */
  lemma FoundInTime(cfg: Config, text: string, chunks: seq<Chunk>, block: string, chunk: Chunk, position: nat)
    requires Follows(cfg, text, chunks, block, chunk)
    requires Matches(text, block, position) && SearchStart(cfg, chunks) <= position
    ensures FindFrom(text, block, SearchStart(cfg, chunks)) == Some(chunk.start)
    ensures chunk.start <= position && SlicesTo(text, chunk, block)
  {
    FindsFirst(text, block, SearchStart(cfg, chunks));
  }

  /**
   When the blocks join to the text and the search never skips past a separator, every
   block is found, never after its true position, and its offsets slice the text exactly.
   */
  lemma {:induction false} OffsetsExact(cfg: Config, text: string, blocks: seq<string>, chunks: seq<Chunk>, i: nat)
    requires BuiltFrom(cfg, text, blocks, chunks) && i < |blocks|
    requires Join(blocks, cfg.separator) == text && cfg.chunkOverlap + |cfg.separator| >= 0
    ensures |chunks| == |blocks|
    ensures FindFrom(text, blocks[i], SearchStart(cfg, chunks[..i])) == Some(chunks[i].start)
    ensures chunks[i].start <= TruePosition(blocks, i, cfg.separator)
    ensures SlicesTo(text, chunks[i], blocks[i])
  {
    var sep := cfg.separator;
    BuiltAt(cfg, text, blocks, chunks, i);
    var before := chunks[..i];
    BlockAtPosition(blocks, i, sep);
    assert SearchStart(cfg, before) <= TruePosition(blocks, i, sep) by {
      if i > 0 {
        OffsetsExact(cfg, text, blocks, chunks, i - 1);
        NextPosition(blocks, i - 1, sep);
        assert before[|before| - 1] == chunks[i - 1];
        BuiltAt(cfg, text, blocks, chunks, i - 1);
      }
    }
    FoundInTime(cfg, text, before, blocks[i], chunks[i], TruePosition(blocks, i, sep));
  }

  /** Overlap only prepends, and never pushes a chunk past the size limit. */
  lemma ContentKeepsBlock(cfg: Config, text: string, blocks: seq<string>, chunks: seq<Chunk>, i: nat)
    requires BuiltFrom(cfg, text, blocks, chunks) && i < |blocks|
    ensures |chunks| == |blocks|
    ensures
      var content := chunks[i].content;
      && |content| >= |blocks[i]| && content[|content| - |blocks[i]|..] == blocks[i]
      && (content == blocks[i] || |content| <= cfg.chunkSize)
  {
    BuiltAt(cfg, text, blocks, chunks, i);
  }

  /** A text with a blank part, whose segments join to another text. */
  lemma BlankPartIsLost()
    ensures
      var parts := Split("a||b", "|");
      parts == ["a", "", "b"] && NonBlank(parts) == ["a", "b"] && Join(["a", "b"], "|") == "a|b"
  {
    SplitsInThree();
    NonBlankSnoc([], "a");
    NonBlankSnoc(["a"], "");
    NonBlankSnoc(["a", ""], "b");
    assert [] + ["a"] == ["a"] && ["a"] + [""] == ["a", ""] && ["a", ""] + ["b"] == ["a", "", "b"];
    JoinSnoc(["a"], "b", "|");
  }

  lemma NonBlankSnoc(parts: seq<string>, last: string)
    ensures NonBlank(parts + [last]) == NonBlank(parts) + if Blank(last) then [] else [last]
    ensures last == "a" || last == "b" ==> !Blank(last)
  {
    assert last == "a" || last == "b" ==> !IsSpace(last[0]);
  }

  lemma SplitsInThree()
    ensures Split("a||b", "|") == ["a", "", "b"]
  {
    var text, rest := "a||b", "|b";
    assert text[0..1][0] == 'a' && text[1..2] == "|";
    assert !Matches(text, "|", 0) && Matches(text, "|", 1);
    assert FindFrom(text, "|", 1) == Some(1);
    assert text[..1] == "a" && text[2..] == rest;
    assert rest[0..1] == "|" && Matches(rest, "|", 0);
    assert rest[..0] == "" && rest[1..] == "b";
    assert "b"[0..1][0] == 'b' && !Matches("b", "|", 0);
    assert Split("b", "|") == ["b"];
  }

  /** Merged into one block, those segments do not occur in the text, and the offsets slice it to something else. */
  lemma MergedBlockIsNotFound()
    ensures
      var cfg, text, block := Config(10, 0, "|"), "a||b", "a|b";
      var chunk := Chunk(block, 0, 0, 3);
      Follows(cfg, text, [], block, chunk) && !SlicesTo(text, chunk, block)
  {
    var text, block := "a||b", "a|b";
    assert text[0..3][2] == '|' && block[2] == 'b';
    assert text[1..4][0] == '|' && block[0] == 'a';
    assert !Matches(text, block, 0) && !Matches(text, block, 1);
    assert FindFrom(text, block, 1) == None;
    assert FindFrom(text, block, 0) == None;
  }

  // ---------------------------------------------------------------------------
  // chunk_text
  // ---------------------------------------------------------------------------

  datatype ChunkResult = EmptySeparator | Chunked(chunks: seq<Chunk>)

  /**
   The whole pipeline: `parts` is the text cut at every separator, `groups` the fewest possible
   groups of the parts that are not blank, and every block becomes a chunk with its content and
   place. The blocks join back to the text exactly when no part is blank, and then every chunk's
   offsets slice the text to its block.
   */
  method ChunkText(cfg: Config, text: string)
    returns (r: ChunkResult, ghost parts: seq<string>, ghost groups: seq<seq<string>>, ghost blocks: seq<string>)
    ensures r.EmptySeparator? <==> text != "" && cfg.separator == ""
    ensures text == "" ==> r == Chunked([])
    ensures r.Chunked? && text != "" ==>
              && IsSplit(text, cfg.separator, 0, parts)
              && (forall part :: part in parts ==> !Contains(part, cfg.separator))
              && Packed(cfg, NonBlank(parts), groups, blocks)
              && |r.chunks| == |blocks|
              && (forall i :: 0 <= i < |blocks| ==>
                    Placed(cfg, text, blocks, r.chunks, i) && Overlaps(cfg, blocks, r.chunks, i))
    ensures r.Chunked? && text != "" ==>
              (Join(blocks, cfg.separator) == text <==> forall p :: p in parts ==> !Blank(p))
    ensures r.Chunked? && text != "" && cfg.chunkOverlap + |cfg.separator| >= 0 && (forall p :: p in parts ==> !Blank(p)) ==>
              |r.chunks| == |blocks| && forall i :: 0 <= i < |r.chunks| ==> SlicesTo(text, r.chunks[i], blocks[i])
  {
    parts, groups, blocks := [], [], [];
    if text == "" {
      return Chunked([]), [], [], [];
    }
    if cfg.separator == "" {
      return EmptySeparator, [], [], [];
    }
    var split := Split(text, cfg.separator);
    var merged, grouping := MergeSegments(cfg, NonBlank(split));
    var chunks := BuildChunks(cfg, merged, text);
    parts, groups, blocks := split, grouping, merged;
    SplitCuts(text, cfg.separator);
    PartsAreFree(text, cfg.separator, 0, split);
    GroupsArePacked(cfg, NonBlank(split), groups, blocks);
    SegmentsRoundTrip(text, cfg.separator);
    AllPlaced(cfg, text, merged, chunks);
    r := Chunked(chunks);
  }

  /**
   The blocks are the groups joined, every segment in one group; no block of several segments
   exceeds the size limit, none leaves room for the segment that comes next, and no other such
   grouping has fewer groups.
   */
  ghost predicate Packed(cfg: Config, segments: seq<string>, groups: seq<seq<string>>, blocks: seq<string>) {
    && Flatten(groups) == segments && |blocks| == |groups|
    && (forall i :: 0 <= i < |groups| ==> blocks[i] == Join(groups[i], cfg.separator))
    && (forall i :: 0 <= i < |groups| ==> groups[i] != [] && (|groups[i]| > 1 ==> |blocks[i]| <= cfg.chunkSize))
    && (forall i :: 0 < i < |groups| ==> |blocks[i - 1]| + |cfg.separator| + |groups[i][0]| > cfg.chunkSize)
    && (forall other :: IsGrouping(cfg, segments, other) ==> |groups| <= |other|)
  }

  lemma GroupsArePacked(cfg: Config, segments: seq<string>, groups: seq<seq<string>>, blocks: seq<string>)
    requires IsGrouping(cfg, segments, groups) && Maximal(cfg, groups)
    requires blocks == JoinEach(groups, cfg.separator)
    requires forall other :: IsGrouping(cfg, segments, other) ==> |groups| <= |other|
    ensures Packed(cfg, segments, groups, blocks) && Join(blocks, cfg.separator) == Join(segments, cfg.separator)
  {
    assert forall i :: 0 <= i < |groups| ==> Fits(cfg, groups[i]);
    BlocksJoin(groups, cfg.separator);
    forall i | 0 < i < |groups| ensures |blocks[i - 1]| + |cfg.separator| + |groups[i][0]| > cfg.chunkSize {
      JoinSnoc(groups[i - 1], groups[i][0], cfg.separator);
    }
  }

  lemma AllPlaced(cfg: Config, text: string, blocks: seq<string>, chunks: seq<Chunk>)
    requires BuiltFrom(cfg, text, blocks, chunks) && |chunks| == |blocks|
    ensures forall i :: 0 <= i < |blocks| ==> Placed(cfg, text, blocks, chunks, i) && Overlaps(cfg, blocks, chunks, i)
    ensures Join(blocks, cfg.separator) == text && cfg.chunkOverlap + |cfg.separator| >= 0 ==>
              forall i :: 0 <= i < |chunks| ==> SlicesTo(text, chunks[i], blocks[i])
  {
    forall i | 0 <= i < |blocks| ensures Placed(cfg, text, blocks, chunks, i) && Overlaps(cfg, blocks, chunks, i) {
      StartIsFirstOccurrence(cfg, text, blocks, chunks, i);
      ContentOverlaps(cfg, text, blocks, chunks, i);
    }
    if Join(blocks, cfg.separator) == text && cfg.chunkOverlap + |cfg.separator| >= 0 {
      forall i | 0 <= i < |chunks| ensures SlicesTo(text, chunks[i], blocks[i]) {
        OffsetsExact(cfg, text, blocks, chunks, i);
      }
    }
  }
}
