/**
 The tags of parsed nodes (packages/proxy-core/src/parser.rs): how they are made, why both parsers
 give every node a tag of its own, and what the step that makes tags unique does to other lists.
 */
module SubscriptionTags {
  import opened Wrappers
  import opened Text
  import SingBoxConfig

  const MAX_SLUG: nat := 36

  // ---------------------------------------------------------------------
  // Making tags
  // ---------------------------------------------------------------------

  predicate SlugChar(c: char) {
    'a' <= c <= 'z' || 'A' <= c <= 'Z' || IsDigit(c) || c == '-' || c == '_'
  }

  /** `lower` is the Unicode lower case of a character, which may have several characters. */
  function Slugged(name: string, lower: char -> string): (r: string)
    ensures forall i :: 0 <= i < |r| ==> SlugChar(r[i])
  {
    if name == "" then ""
    else
      var letters := lower(name[0]);
      seq(|letters|, i requires 0 <= i < |letters| => if SlugChar(letters[i]) then letters[i] else '-')
      + Slugged(name[1..], lower)
  }

  function Slug(name: string, lower: char -> string): string {
    var trimmed := Trim(Slugged(name, lower), c => c == '-');
    if |trimmed| > MAX_SLUG then trimmed[..MAX_SLUG] else trimmed
  }

  function Numbered(base: string, n: nat): string {
    base + "-" + Decimal(n)
  }

  /** `make_tag`. */
  function MakeTag(name: string, index: nat, lower: char -> string): string {
    var slug := Slug(name, lower);
    Numbered(if slug == "" then "node" else slug, index + 1)
  }

  /** A slug consists of letters, digits, hyphens and underscores, is not longer than allowed, and has
      no hyphen at its start, nor at its end unless it was cut. */
  lemma SlugsAreShort(name: string, lower: char -> string)
    ensures |Slug(name, lower)| <= MAX_SLUG
    ensures forall i :: 0 <= i < |Slug(name, lower)| ==> SlugChar(Slug(name, lower)[i])
    ensures Slug(name, lower) != "" ==> Slug(name, lower)[0] != '-'
    ensures 0 < |Slug(name, lower)| < MAX_SLUG ==> Slug(name, lower)[|Slug(name, lower)| - 1] != '-'
  {
    var slugged := Slugged(name, lower);
    var k := TrimOccurs(slugged, c => c == '-');
    var trimmed := Trim(slugged, c => c == '-');
    assert trimmed == slugged[k..k + |trimmed|];
    hide Slugged, Trim, SlugChar;
    assert forall i :: 0 <= i < |trimmed| ==> trimmed[i] == slugged[k + i];
  }

  /** A name that looks like a slug already is kept: its tag is the name and the number. */
  lemma PlainNamesAreKept(name: string, index: nat, lower: char -> string)
    requires 0 < |name| <= MAX_SLUG && name[0] != '-' && name[|name| - 1] != '-'
    requires forall i :: 0 <= i < |name| ==> SlugChar(name[i]) && lower(name[i]) == [name[i]]
    ensures MakeTag(name, index, lower) == Numbered(name, index + 1)
  {
    PlainNamesAreSlugged(name, lower);
    hide Slugged, SlugChar, Trim, Decimal;
    var hyphen := (c: char) => c == '-';
    assert name[..0] == "" && name[0..|name|] == name && name[|name|..] == "";
    assert IsTrimmedAt(name, name, hyphen, 0);
    TrimIsExact(name, name, hyphen);
  }

  lemma {:induction false} PlainNamesAreSlugged(name: string, lower: char -> string)
    requires forall i :: 0 <= i < |name| ==> SlugChar(name[i]) && lower(name[i]) == [name[i]]
    ensures Slugged(name, lower) == name
  {
    if name != "" {
      PlainNamesAreSlugged(name[1..], lower);
      assert name == [name[0]] + name[1..];
    }
  }

  /** A number has no hyphen, so the last one is that before the number. */
  lemma LastHyphen(a: string, m: nat, k: nat)
    requires k < |Numbered(a, m)| && Numbered(a, m)[k] == '-'
    ensures k <= |a|
  {
    var whole := Numbered(a, m);
    assert forall i :: |a| < i < |whole| ==> whole[i] == Decimal(m)[i - |a| - 1];
  }

  /** Base and number can be read off a numbered tag. */
  lemma NumberedIsInjective(a: string, m: nat, b: string, n: nat)
    requires Numbered(a, m) == Numbered(b, n)
    ensures a == b && m == n
  {
    var whole := Numbered(a, m);
    LastHyphen(a, m, |b|);
    LastHyphen(b, n, |a|);
    assert whole[|a| + 1..] == Decimal(m) && whole[|b| + 1..] == Decimal(n);
    assert whole[..|a|] == a && whole[..|b|] == b;
    DecimalIsInjective(m, n);
  }

  /** Tags made for different positions differ, whatever the names. */
  lemma TagsOfPositionsDiffer(x: string, i: nat, y: string, j: nat, lower: char -> string)
    requires i != j
    ensures MakeTag(x, i, lower) != MakeTag(y, j, lower)
  {
    if MakeTag(x, i, lower) == MakeTag(y, j, lower) {
      var a, b := Slug(x, lower), Slug(y, lower);
      NumberedIsInjective(if a == "" then "node" else a, i + 1, if b == "" then "node" else b, j + 1);
    }
  }

  // ---------------------------------------------------------------------
  // Making tags unique
  // ---------------------------------------------------------------------

  function Count(tags: seq<string>, tag: string): nat {
    if tags == [] then 0
    else Count(tags[..|tags| - 1], tag) + if tags[|tags| - 1] == tag then 1 else 0
  }

  /** The first node with a tag keeps it; the n-th one gets the number n appended. */
  function UniqueTag(tags: seq<string>, i: nat): string
    requires i < |tags|
  {
    var before := Count(tags[..i], tags[i]);
    if before == 0 then tags[i] else Numbered(tags[i], before + 1)
  }

  function Uniquified(tags: seq<string>): (r: seq<string>)
    ensures |r| == |tags|
  {
    seq(|tags|, i requires 0 <= i < |tags| => UniqueTag(tags, i))
  }

  lemma {:induction false} CountedMeansPresent(tags: seq<string>, tag: string)
    ensures Count(tags, tag) > 0 <==> tag in tags
  {
    if tags != [] {
      CountedMeansPresent(tags[..|tags| - 1], tag);
      assert tags == tags[..|tags| - 1] + [tags[|tags| - 1]];
    }
  }

  lemma {:induction false} CountGrows(tags: seq<string>, tag: string, i: nat, j: nat)
    requires i < j <= |tags|
    ensures Count(tags[..j], tag) >= Count(tags[..i], tag) + if tags[i] == tag then 1 else 0
    decreases j
  {
    assert tags[..j][..j - 1] == tags[..j - 1];
    if j > i + 1 {
      CountGrows(tags, tag, i, j - 1);
    }
  }

  /** The n-th occurrence of a tag. */
  lemma {:induction false} Occurrence(tags: seq<string>, tag: string, n: nat) returns (i: nat)
    requires n < Count(tags, tag)
    ensures i < |tags| && tags[i] == tag && Count(tags[..i], tag) == n
    decreases |tags|
  {
    var last := |tags| - 1;
    if tags[last] == tag && Count(tags[..last], tag) == n {
      i := last;
    } else {
      i := Occurrence(tags[..last], tag, n);
      assert tags[..last][..i] == tags[..i];
    }
  }

  /** Distinct tags are left alone. */
  lemma DistinctTagsStay(tags: seq<string>)
    requires Distinct(tags)
    ensures Uniquified(tags) == tags
  {
    forall i | 0 <= i < |tags| ensures UniqueTag(tags, i) == tags[i] {
      CountedMeansPresent(tags[..i], tags[i]);
    }
  }

  /** No tag of the list looks like one that is about to be made from a repeated tag. */
  predicate NothingClashes(tags: seq<string>) {
    forall i, n: nat :: 0 <= i < |tags| && 2 <= n <= Count(tags, tags[i]) ==> Numbered(tags[i], n) !in tags
  }

  /** A tag that is made meets a tag that stays. */
  lemma ClashMakesDuplicates(tags: seq<string>, i: nat, n: nat)
    requires i < |tags| && 2 <= n <= Count(tags, tags[i]) && Numbered(tags[i], n) in tags
    ensures !Distinct(Uniquified(tags))
  {
    hide Numbered;
    var made := Numbered(tags[i], n);
    CountedMeansPresent(tags, made);
    var j := Occurrence(tags, made, 0);
    var k := Occurrence(tags, tags[i], n - 1);
    assert Uniquified(tags)[j] == made && Uniquified(tags)[k] == made;
    LongerThanItsBase(tags[i], n);
    assert Uniquified(tags)[if j < k then j else k] == Uniquified(tags)[if j < k then k else j];
  }

  lemma LongerThanItsBase(base: string, n: nat)
    ensures |Numbered(base, n)| > |base|
  {
  }

  lemma UniqueTagsDiffer(tags: seq<string>, i: nat, j: nat)
    requires i < j < |tags| && NothingClashes(tags)
    ensures UniqueTag(tags, i) != UniqueTag(tags, j)
  {
    hide Numbered, NothingClashes;
    var a, b := tags[i], tags[j];
    var m, n := Count(tags[..i], a), Count(tags[..j], b);
    CountGrows(tags, a, i, j);
    if m > 0 && n == 0 {
      NoClash(tags, i, m, j);
    } else if m == 0 && n > 0 {
      NoClash(tags, j, n, i);
    } else if m > 0 && UniqueTag(tags, i) == UniqueTag(tags, j) {
      NumberedIsInjective(a, m + 1, b, n + 1);
    }
  }

  lemma NoClash(tags: seq<string>, i: nat, m: nat, j: nat)
    requires i < |tags| && j < |tags| && NothingClashes(tags) && m == Count(tags[..i], tags[i]) > 0
    ensures Numbered(tags[i], m + 1) != tags[j]
  {
    CountGrows(tags, tags[i], i, |tags|);
    assert tags[..|tags|] == tags;
    assert 2 <= m + 1 <= Count(tags, tags[i]);
    assert tags[j] in tags;
  }

  /** The step makes all tags distinct exactly if no tag of the list already has the form it gives to
      a repeated one. */
  lemma UniquifiedIsDistinct(tags: seq<string>)
    ensures Distinct(Uniquified(tags)) <==> NothingClashes(tags)
  {
    hide Numbered, UniqueTag;
    if NothingClashes(tags) {
      forall i, j | 0 <= i < j < |tags| ensures Uniquified(tags)[i] != Uniquified(tags)[j] {
        UniqueTagsDiffer(tags, i, j);
      }
    } else {
      var i, n: nat :| 0 <= i < |tags| && 2 <= n <= Count(tags, tags[i]) && Numbered(tags[i], n) in tags;
      ClashMakesDuplicates(tags, i, n);
    }
  }

  /** So it can fail: the second `a` becomes `a-2`, and there is one already. */
  lemma UniquifyingCanFail()
    ensures Uniquified(["a", "a", "a-2"]) == ["a", "a-2", "a-2"]
    ensures !Distinct(Uniquified(["a", "a", "a-2"]))
  {
    var tags := ["a", "a", "a-2"];
    assert tags[..0] == [] && tags[..1] == ["a"] && tags[..2] == ["a", "a"];
    assert ["a"][..0] == [] && ["a", "a"][..1] == ["a"];
    assert Count(["a"], "a") == 1;
    CountedMeansPresent(["a", "a"], "a-2");
    assert "a-2" != "a" && Decimal(2) == "2";
    assert "a" + "-" + "2" == "a-2";
    var unique := Uniquified(tags);
    assert unique[0] == "a" && unique[1] == "a-2" && unique[2] == "a-2";
  }

  // ---------------------------------------------------------------------
  // The parsers
  // ---------------------------------------------------------------------

  datatype Node = Node(tag: string, name: string)
  datatype Report = Report(nodes: seq<Node>, rejected: seq<nat>)

  function Tags(nodes: seq<Node>): (r: seq<string>)
    ensures |r| == |nodes|
  {
    seq(|nodes|, i requires 0 <= i < |nodes| => nodes[i].tag)
  }

  /** The node was made for a position that grows along the list. */
  predicate MadeInOrder(nodes: seq<Node>, positions: seq<nat>, lower: char -> string) {
    && |positions| == |nodes|
    && (forall i, j :: 0 <= i < j < |positions| ==> positions[i] < positions[j])
    && (forall i :: 0 <= i < |nodes| ==> nodes[i].tag == MakeTag(nodes[i].name, positions[i], lower))
  }

  lemma MadeTagsAreDistinct(nodes: seq<Node>, positions: seq<nat>, lower: char -> string)
    requires MadeInOrder(nodes, positions, lower)
    ensures Distinct(Tags(nodes))
  {
    hide MakeTag;
    forall i, j | 0 <= i < j < |nodes| ensures Tags(nodes)[i] != Tags(nodes)[j] {
      TagsOfPositionsDiffer(nodes[i].name, positions[i], nodes[j].name, positions[j], lower);
    }
  }

  /** `uniquify_tags`, with its map of counts. */
  method UniquifyTags(nodes: array<Node>)
    modifies nodes
    ensures Tags(nodes[..]) == Uniquified(Tags(old(nodes[..])))
    ensures forall i :: 0 <= i < nodes.Length ==> nodes[i].name == old(nodes[i].name)
  {
    hide UniqueTag, Numbered;
    ghost var before := nodes[..];
    ghost var tags := Tags(before);
    var counts: map<string, nat> := map[];
    for i := 0 to nodes.Length
      invariant forall t :: t in counts ==> counts[t] == Count(tags[..i], t)
      invariant forall t :: t !in counts ==> Count(tags[..i], t) == 0
      invariant forall k :: 0 <= k < i ==> nodes[k] == before[k].(tag := UniqueTag(tags, k))
      invariant forall k :: i <= k < nodes.Length ==> nodes[k] == before[k]
    {
      var tag := nodes[i].tag;
      var count := if tag in counts then counts[tag] else 0;
      UniqueTagIs(tags, i);
      if count > 0 {
        nodes[i] := nodes[i].(tag := Numbered(tag, count + 1));
      }
      counts := counts[tag := count + 1];
      CountStep(tags, i);
    }
    assert tags[..nodes.Length] == tags;
  }

  lemma UniqueTagIs(tags: seq<string>, i: nat)
    requires i < |tags|
    ensures UniqueTag(tags, i) ==
            var before := Count(tags[..i], tags[i]); if before == 0 then tags[i] else Numbered(tags[i], before + 1)
  {
  }

  lemma CountStep(tags: seq<string>, i: nat)
    requires i < |tags|
    ensures forall t :: Count(tags[..i + 1], t) == Count(tags[..i], t) + if tags[i] == t then 1 else 0
  {
    assert tags[..i + 1][..i] == tags[..i];
  }

  method Finish(nodes: seq<Node>, rejected: seq<nat>, ghost positions: seq<nat>, lower: char -> string) returns (report: Report)
    requires MadeInOrder(nodes, positions, lower)
    ensures report == Report(nodes, rejected) && Distinct(Tags(report.nodes))
  {
    hide MakeTag, Uniquified;
    var buffer := new Node[|nodes|](i requires 0 <= i < |nodes| => nodes[i]);
    assert buffer[..] == nodes;
    UniquifyTags(buffer);
    MadeTagsAreDistinct(nodes, positions, lower);
    DistinctTagsStay(Tags(nodes));
    forall i | 0 <= i < |nodes| ensures buffer[i] == nodes[i] {
      assert Tags(buffer[..])[i] == Tags(nodes)[i];
    }
    assert buffer[..] == nodes;
    report := Report(buffer[..], rejected);
  }

  predicate StartsWith(s: string, t: string) {
    OccursAt(s, t, 0)
  }

  predicate Ignored(line: string) {
    line == "" || StartsWith(line, "#") || StartsWith(line, "//") || FirstIndex(line, "://", 0).None?
  }

  /** What becomes of one entry of a subscription. */
  datatype Outcome = Skipped | Parsed(name: string) | Failed

  function OutcomeOf(name: Option<string>): Outcome {
    if name.Some? then Parsed(name.value) else Failed
  }

  function Names(nodes: seq<Node>): (r: seq<string>)
    ensures |r| == |nodes|
  {
    seq(|nodes|, i requires 0 <= i < |nodes| => nodes[i].name)
  }

  /** The names of the entries that can be parsed, in order. */
  function ParsedNames(outcomes: seq<Outcome>): seq<string> {
    if outcomes == [] then []
    else
      var last := outcomes[|outcomes| - 1];
      ParsedNames(outcomes[..|outcomes| - 1]) + if last.Parsed? then [last.name] else []
  }

  /** The numbers, from 1, of those that cannot. */
  function FailedNumbers(outcomes: seq<Outcome>): seq<nat> {
    if outcomes == [] then []
    else
      FailedNumbers(outcomes[..|outcomes| - 1]) + if outcomes[|outcomes| - 1].Failed? then [|outcomes|] else []
  }

  /** Every entry that is not skipped is a node or reported, and none is both. */
  lemma {:induction false} EveryEntryIsAccountedFor(outcomes: seq<Outcome>, k: nat)
    ensures k in FailedNumbers(outcomes) <==> 1 <= k <= |outcomes| && outcomes[k - 1].Failed?
    ensures |ParsedNames(outcomes)| + |FailedNumbers(outcomes)| == |outcomes| - SkippedCount(outcomes)
  {
    if outcomes != [] {
      hide ParsedNames;
      ParsedNamesStep(outcomes);
      EveryEntryIsAccountedFor(outcomes[..|outcomes| - 1], k);
    }
  }

  lemma ParsedNamesStep(outcomes: seq<Outcome>)
    requires outcomes != []
    ensures |ParsedNames(outcomes)| ==
            |ParsedNames(outcomes[..|outcomes| - 1])| + if outcomes[|outcomes| - 1].Parsed? then 1 else 0
    ensures |FailedNumbers(outcomes)| ==
            |FailedNumbers(outcomes[..|outcomes| - 1])| + if outcomes[|outcomes| - 1].Failed? then 1 else 0
  {
  }

  lemma {:induction false} AllSkippedIff(outcomes: seq<Outcome>)
    ensures (forall i :: 0 <= i < |outcomes| ==> outcomes[i].Skipped?) <==>
            |ParsedNames(outcomes)| == 0 && |FailedNumbers(outcomes)| == 0
  {
    if outcomes != [] {
      hide ParsedNames, FailedNumbers;
      var front := outcomes[..|outcomes| - 1];
      assert forall i :: 0 <= i < |front| ==> front[i] == outcomes[i];
      AllSkippedIff(front);
      ParsedNamesStep(outcomes);
    }
  }

  function SkippedCount(outcomes: seq<Outcome>): nat {
    if outcomes == [] then 0
    else SkippedCount(outcomes[..|outcomes| - 1]) + if outcomes[|outcomes| - 1].Skipped? then 1 else 0
  }

  lemma OneMoreOutcome(outcomes: seq<Outcome>, next: Outcome)
    ensures ParsedNames(outcomes + [next]) == ParsedNames(outcomes) + if next.Parsed? then [next.name] else []
    ensures FailedNumbers(outcomes + [next]) == FailedNumbers(outcomes) + if next.Failed? then [|outcomes| + 1] else []
  {
    assert (outcomes + [next])[..|outcomes|] == outcomes;
  }

  lemma OneMoreName(nodes: seq<Node>, node: Node)
    ensures Names(nodes + [node]) == Names(nodes) + [node.name]
  {
  }

  function LineOutcome(line: string, parse: string -> Option<string>): Outcome {
    if Ignored(Trim(line, IsSpace)) then Skipped else OutcomeOf(parse(Trim(line, IsSpace)))
  }

  function LineOutcomes(lines: seq<string>, parse: string -> Option<string>): (r: seq<Outcome>)
    ensures |r| == |lines|
  {
    seq(|lines|, i requires 0 <= i < |lines| => LineOutcome(lines[i], parse))
  }

  /** `parse_uri_lines`. `parse` is the parser of one share link, which yields the node's name. A node
      is numbered by the nodes before it, so the tags are made for 0, 1, 2 and so on, and making
      them unique changes none of them. Every line that is not ignored is a node or reported by its
      number; if there is none, that is reported. */
  method ParseUriLines(lines: seq<string>, parse: string -> Option<string>, lower: char -> string) returns (report: Report)
    ensures Distinct(Tags(report.nodes))
    ensures forall i :: 0 <= i < |report.nodes| ==> report.nodes[i].tag == MakeTag(report.nodes[i].name, i, lower)
    ensures
      var outcomes := LineOutcomes(lines, parse);
      && Names(report.nodes) == ParsedNames(outcomes)
      && report.rejected ==
           if forall i :: 0 <= i < |lines| ==> outcomes[i].Skipped? then [0] else FailedNumbers(outcomes)
  {
    hide MakeTag, Ignored, LineOutcome, Names, ParsedNames, FailedNumbers;
    var nodes: seq<Node>, rejected: seq<nat> := [], [];
    ghost var outcomes := LineOutcomes(lines, parse);
    NoOutcomes();
    assert outcomes[..0] == [];
    for lineIndex := 0 to |lines|
      invariant forall i :: 0 <= i < |nodes| ==> nodes[i].tag == MakeTag(nodes[i].name, i, lower)
      invariant Names(nodes) == ParsedNames(outcomes[..lineIndex]) && rejected == FailedNumbers(outcomes[..lineIndex])
    {
      var line := Trim(lines[lineIndex], IsSpace);
      OneMoreOutcome(outcomes[..lineIndex], outcomes[lineIndex]);
      LineOutcomeIs(lines[lineIndex], parse);
      assert outcomes[..lineIndex + 1] == outcomes[..lineIndex] + [outcomes[lineIndex]];
      if !Ignored(line) {
        match parse(line)
        case Some(name) =>
          var node := Node(MakeTag(name, |nodes|, lower), name);
          OneMoreName(nodes, node);
          nodes := nodes + [node];
        case None => rejected := rejected + [lineIndex + 1];
      }
    }
    assert outcomes[..|lines|] == outcomes;
    AllSkippedIff(outcomes);
    NoNames(nodes);
    if nodes == [] && rejected == [] {
      rejected := [0];
    }
    ghost var positions: seq<nat> := seq(|nodes|, i => i);
    report := Finish(nodes, rejected, positions, lower);
  }

  lemma NoOutcomes()
    ensures Names([]) == [] && ParsedNames([]) == [] && FailedNumbers([]) == []
  {
  }

  lemma NoNames(nodes: seq<Node>)
    ensures Names(nodes) == [] <==> nodes == []
  {
  }

  lemma LineOutcomeIs(line: string, parse: string -> Option<string>)
    ensures LineOutcome(line, parse) ==
            if Ignored(Trim(line, IsSpace)) then Skipped else OutcomeOf(parse(Trim(line, IsSpace)))
  {
  }

  function EntryOutcomes(entries: nat, parse: nat -> Option<string>): (r: seq<Outcome>)
    ensures |r| == entries
  {
    seq(entries, i requires 0 <= i < entries => OutcomeOf(parse(i)))
  }

  /** The node loop of `parse_clash_yaml`. A node is numbered by its place in the list, rejected
      entries included, so the numbers may have gaps; the tags are distinct all the same. Every
      entry is accepted or reported. */
  method ParseClashProxies(entries: nat, parse: nat -> Option<string>, lower: char -> string)
    returns (report: Report, ghost positions: seq<nat>)
    ensures Distinct(Tags(report.nodes)) && MadeInOrder(report.nodes, positions, lower)
    ensures forall i :: 0 <= i < |positions| ==> positions[i] < entries && parse(positions[i]) == Some(report.nodes[i].name)
    ensures Names(report.nodes) == ParsedNames(EntryOutcomes(entries, parse))
    ensures report.rejected == FailedNumbers(EntryOutcomes(entries, parse))
  {
    hide MakeTag, Names, ParsedNames, FailedNumbers;
    var nodes: seq<Node>, rejected: seq<nat> := [], [];
    positions := [];
    ghost var outcomes := EntryOutcomes(entries, parse);
    NoOutcomes();
    assert outcomes[..0] == [];
    for index := 0 to entries
      invariant MadeInOrder(nodes, positions, lower)
      invariant Names(nodes) == ParsedNames(outcomes[..index]) && rejected == FailedNumbers(outcomes[..index])
      invariant forall i :: 0 <= i < |positions| ==> positions[i] < index && parse(positions[i]) == Some(nodes[i].name)
    {
      OneMoreOutcome(outcomes[..index], outcomes[index]);
      assert outcomes[..index + 1] == outcomes[..index] + [outcomes[index]];
      match parse(index)
      case Some(name) =>
        var node := Node(MakeTag(name, index, lower), name);
        OneMoreName(nodes, node);
        nodes := nodes + [node];
        positions := positions + [index];
      case None => rejected := rejected + [index + 1];
    }
    assert outcomes[..entries] == outcomes;
    report := Finish(nodes, rejected, positions, lower);
  }

  // ---------------------------------------------------------------------
  // The configuration made from a report
  // ---------------------------------------------------------------------

  lemma MadeTagsAreNotReserved(name: string, index: nat, lower: char -> string)
    ensures MakeTag(name, index, lower) !in ["proxy", "direct", "block"]
  {
    hide Slug;
    var tag := MakeTag(name, index, lower);
    var n := Decimal(index + 1);
    assert tag[|tag| - 1] == n[|n| - 1];
    assert !IsDigit("proxy"[4]) && !IsDigit("direct"[5]) && !IsDigit("block"[4]);
  }

  /** The outbounds of a configuration made from the nodes of one report have distinct tags: the
      nodes among themselves, and none has the tag of the selector or of a built-in outbound. */
  lemma OutboundsOfAReportAreDistinct(
    f: SingBoxConfig.Foreign, request: SingBoxConfig.Request, nodes: seq<Node>, positions: seq<nat>, lower: char -> string)
    requires MadeInOrder(nodes, positions, lower) && SingBoxConfig.NodeTags(request.nodes) == Tags(nodes)
    ensures Distinct(SingBoxConfig.TagsOf(SingBoxConfig.Outbounds(f, request)))
  {
    hide MakeTag;
    MadeTagsAreDistinct(nodes, positions, lower);
    forall i | 0 <= i < |nodes| ensures request.nodes[i].tag !in ["proxy", "direct", "block"] {
      assert SingBoxConfig.NodeTags(request.nodes)[i] == nodes[i].tag;
      MadeTagsAreNotReserved(nodes[i].name, positions[i], lower);
    }
    SingBoxConfig.OutboundTagsAreDistinct(f, request);
  }
}
