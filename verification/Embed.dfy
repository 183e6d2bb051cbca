/**
 Chained embedding: one pass over the destinations in dependency order.

 The work on text (finding tags, fencing and splicing, stripping the marker line, normalising line
 ends) is a parameter; what is modelled is which text goes into which, and in what order.
 */
module Embed {
  import opened DependencyGraph

  datatype Tag = Tag(fullMatch: string, source: Path)

  /** The text operations: all tags of a text, one splice, the marker line, and CRLF to LF. */
  datatype TextOps = TextOps(
    tags: string -> seq<Tag>,
    splice: (string, Tag, string) -> string,
    stripMarker: string -> string,
    normalize: string -> string)

  datatype Outcome =
    | InvalidSource(invalid: seq<Path>)
    | UnreferencedSource(unreferenced: seq<Path>)
    | NoMatch
    | NoChange(sources: seq<Path>)
    | Update(sources: seq<Path>, updatedContent: string)

  // ----- One destination

  function TagSources(tags: seq<Tag>): seq<Path> {
    seq(|tags|, i requires 0 <= i < |tags| => tags[i].source)
  }

  function Without(s: seq<Path>, t: seq<Path>): seq<Path> {
    if s == [] then []
    else
      var last := s[|s| - 1];
      Without(s[..|s| - 1], t) + if last in t then [] else [last]
  }

  /** Tags by their full match: the place of the first, the value of the last. */
  function Unique(tags: seq<Tag>): (r: seq<Tag>)
    ensures forall i :: 0 <= i < |r| ==> r[i] in tags
  {
    if tags == [] then []
    else
      var last := tags[|tags| - 1];
      Put(Unique(tags[..|tags| - 1]), last)
  }

  function Put(r: seq<Tag>, tag: Tag): (r': seq<Tag>)
    ensures forall i :: 0 <= i < |r'| ==> r'[i] in r || r'[i] == tag
  {
    if r == [] then [tag]
    else if r[0].fullMatch == tag.fullMatch then [tag] + r[1..]
    else [r[0]] + Put(r[1..], tag)
  }

  function Spliced(ops: TextOps, content: string, tags: seq<Tag>, contents: map<Path, string>): string
    requires forall i :: 0 <= i < |tags| ==> tags[i].source in contents
  {
    if tags == [] then content
    else
      var last := tags[|tags| - 1];
      ops.splice(Spliced(ops, content, tags[..|tags| - 1], contents), last, ops.normalize(contents[last.source]))
  }

  /** The outcome for a destination, as a function of its own text and the texts of its sources. */
  function Processed(ops: TextOps, text: string, sources: seq<Path>, contents: map<Path, string>): Outcome
    requires forall s :: s in sources ==> s in contents
  {
    var content := ops.normalize(text);
    var tags := ops.tags(content);
    var invalid := Without(TagSources(tags), sources);
    var unreferenced := Without(sources, TagSources(tags));
    if invalid != [] then InvalidSource(invalid)
    else if unreferenced != [] then UnreferencedSource(unreferenced)
    else if tags == [] then NoMatch
    else
      WithoutIsEmpty(TagSources(tags), sources);
      assert forall i :: 0 <= i < |tags| ==> TagSources(tags)[i] == tags[i].source;
      var unique := Unique(tags);
      var updated := Spliced(ops, content, unique, contents);
      if content == updated then NoChange(TagSources(unique)) else Update(TagSources(unique), updated)
  }

  lemma {:induction false} WithoutIsEmpty(s: seq<Path>, t: seq<Path>)
    ensures Without(s, t) == [] <==> forall x :: x in s ==> x in t
  {
    if s != [] {
      var n := |s| - 1;
      WithoutIsEmpty(s[..n], t);
      assert s == s[..n] + [s[n]];
    }
  }

  /** A destination with a source is never reported as having no match. */
  lemma SourcesForceAMatch(ops: TextOps, text: string, sources: seq<Path>, contents: map<Path, string>)
    requires sources != [] && forall s :: s in sources ==> s in contents
    ensures Processed(ops, text, sources, contents) != NoMatch
  {
    var tags := ops.tags(ops.normalize(text));
    WithoutIsEmpty(sources, TagSources(tags));
    if tags == [] { assert sources[0] in sources; }
  }

  // ----- The outcome told from the text operations alone

  /** Increasing positions of s, one for each element of r. */
  ghost predicate PicksFrom(r: seq<Path>, s: seq<Path>, at: seq<nat>) {
    && |at| == |r|
    && (forall i :: 0 <= i < |at| ==> at[i] < |s| && r[i] == s[at[i]])
    && (forall i, j :: 0 <= i < j < |at| ==> at[i] < at[j])
  }

  /** r is what s has and t has not: every such element, in place, and no other. */
  ghost predicate IsLeftOver(r: seq<Path>, s: seq<Path>, t: seq<Path>) {
    exists at :: PicksFrom(r, s, at) && forall k: nat :: k in at <==> k < |s| && s[k] !in t
  }

  lemma {:induction false} WithoutIsLeftOver(s: seq<Path>, t: seq<Path>)
    ensures IsLeftOver(Without(s, t), s, t)
  {
    var at: seq<nat> := [];
    if s == [] {
      assert PicksFrom([], s, at);
    } else {
      var n := |s| - 1;
      WithoutIsLeftOver(s[..n], t);
      at :| PicksFrom(Without(s[..n], t), s[..n], at) && forall k: nat :: k in at <==> k < n && s[..n][k] !in t;
      hide PicksFrom;
      LeftOverStep(Without(s[..n], t), s, t, at);
    }
  }

  lemma LeftOverStep(r: seq<Path>, s: seq<Path>, t: seq<Path>, at: seq<nat>)
    requires s != [] && PicksFrom(r, s[..|s| - 1], at)
    requires forall k: nat :: k in at <==> k < |s| - 1 && s[k] !in t
    ensures IsLeftOver(r + if s[|s| - 1] in t then [] else [s[|s| - 1]], s, t)
  {
    var n := |s| - 1;
    if s[n] in t {
      assert PicksFrom(r + [], s, at);
    } else {
      assert forall i :: 0 <= i < |at| ==> at[i] in at;
      assert PicksFrom(r + [s[n]], s, at + [n]);
    }
  }

  /** The last tag of its full match. */
  ghost predicate IsLastOf(tags: seq<Tag>, tag: Tag) {
    exists k :: 0 <= k < |tags| && tags[k] == tag && forall m :: k < m < |tags| ==> tags[m].fullMatch != tag.fullMatch
  }

  ghost predicate Occurs(tags: seq<Tag>, fullMatch: string) {
    exists k :: 0 <= k < |tags| && tags[k].fullMatch == fullMatch
  }

  /** Some tag matches a before any matches b. */
  ghost predicate MatchesFirst(tags: seq<Tag>, a: string, b: string) {
    exists k :: 0 <= k < |tags| && tags[k].fullMatch == a && forall m :: 0 <= m <= k ==> tags[m].fullMatch != b
  }

  /** The different full matches of the tags, in order of first occurrence, each as the last tag of its kind. */
  ghost predicate AreDistinct(tags: seq<Tag>, d: seq<Tag>) {
    && (forall i :: 0 <= i < |d| ==> IsLastOf(tags, d[i]))
    && (forall i, j :: 0 <= i < j < |d| ==> MatchesFirst(tags, d[i].fullMatch, d[j].fullMatch))
    && (forall k :: 0 <= k < |tags| ==> Occurs(d, tags[k].fullMatch))
  }

  lemma {:induction false} UniqueIsDistinct(tags: seq<Tag>)
    ensures AreDistinct(tags, Unique(tags))
  {
    if tags != [] {
      var n := |tags| - 1;
      UniqueIsDistinct(tags[..n]);
      PutKeepsPlaces(Unique(tags[..n]), tags[n]);
      PutKeepsDistinct(tags[..n], Unique(tags[..n]), tags[n]);
      assert tags == tags[..n] + [tags[n]];
    }
  }

  /** Where a tag is put: over the one with its full match, or at the end. */
  ghost predicate PutAt(r: seq<Tag>, tag: Tag, after: seq<Tag>) {
    if Occurs(r, tag.fullMatch) then
      exists k :: 0 <= k < |r| && r[k].fullMatch == tag.fullMatch && after == r[k := tag]
    else
      after == r + [tag]
  }

  lemma {:induction false} PutKeepsPlaces(r: seq<Tag>, tag: Tag)
    ensures PutAt(r, tag, Put(r, tag))
  {
    if r != [] && r[0].fullMatch != tag.fullMatch {
      hide Occurs;
      PutKeepsPlaces(r[1..], tag);
      OccursInRest(r, tag.fullMatch);
      PutInRest(r, tag, Put(r[1..], tag));
    } else if r != [] {
      assert r[0].fullMatch == tag.fullMatch && Put(r, tag) == r[0 := tag];
    }
  }

  lemma PutInRest(r: seq<Tag>, tag: Tag, after: seq<Tag>)
    requires r != [] && PutAt(r[1..], tag, after)
    requires Occurs(r, tag.fullMatch) <==> Occurs(r[1..], tag.fullMatch)
    ensures PutAt(r, tag, [r[0]] + after)
  {
    hide Occurs;
    if Occurs(r, tag.fullMatch) {
      var k :| 0 <= k < |r| - 1 && r[1..][k].fullMatch == tag.fullMatch && after == r[1..][k := tag];
      assert r[k + 1].fullMatch == tag.fullMatch && [r[0]] + after == r[k + 1 := tag];
    } else {
      assert [r[0]] + after == r + [tag];
    }
  }

  lemma OccursInRest(r: seq<Tag>, x: string)
    requires r != [] && r[0].fullMatch != x
    ensures Occurs(r, x) <==> Occurs(r[1..], x)
  {
    if Occurs(r, x) {
      var k :| 0 <= k < |r| && r[k].fullMatch == x;
      assert r[1..][k - 1].fullMatch == x;
    }
  }

  lemma LastStays(tags: seq<Tag>, tag: Tag, x: Tag)
    requires IsLastOf(tags, x) && x.fullMatch != tag.fullMatch
    ensures IsLastOf(tags + [tag], x)
  {
    var k :| 0 <= k < |tags| && tags[k] == x && forall m :: k < m < |tags| ==> tags[m].fullMatch != x.fullMatch;
    assert (tags + [tag])[k] == x;
  }

  lemma NewIsLast(tags: seq<Tag>, tag: Tag)
    ensures IsLastOf(tags + [tag], tag)
  {
    assert (tags + [tag])[|tags|] == tag;
  }

  lemma FirstStays(tags: seq<Tag>, tag: Tag, a: string, b: string)
    requires MatchesFirst(tags, a, b)
    ensures MatchesFirst(tags + [tag], a, b) && a != b
  {
    var k :| 0 <= k < |tags| && tags[k].fullMatch == a && forall m :: 0 <= m <= k ==> tags[m].fullMatch != b;
    assert (tags + [tag])[k].fullMatch == a;
  }

  lemma NewIsFirstAfter(tags: seq<Tag>, tag: Tag, x: Tag)
    requires IsLastOf(tags, x) && !Occurs(tags, tag.fullMatch)
    ensures MatchesFirst(tags + [tag], x.fullMatch, tag.fullMatch) && x.fullMatch != tag.fullMatch
  {
    var k :| 0 <= k < |tags| && tags[k] == x;
    assert (tags + [tag])[k] == x;
  }

  lemma PutKeepsDistinct(tags: seq<Tag>, d: seq<Tag>, tag: Tag)
    requires AreDistinct(tags, d)
    ensures AreDistinct(tags + [tag], Put(d, tag))
  {
    PutKeepsPlaces(d, tag);
    var after := Put(d, tag);
    NewIsLast(tags, tag);
    hide IsLastOf, MatchesFirst;
    if Occurs(d, tag.fullMatch) {
      var k :| 0 <= k < |d| && d[k].fullMatch == tag.fullMatch && after == d[k := tag];
      OverwriteKeepsDistinct(tags, d, tag, k);
    } else {
      AppendKeepsDistinct(tags, d, tag);
    }
  }

  lemma OverwriteKeepsDistinct(tags: seq<Tag>, d: seq<Tag>, tag: Tag, k: nat)
    requires AreDistinct(tags, d) && k < |d| && d[k].fullMatch == tag.fullMatch
    ensures AreDistinct(tags + [tag], d[k := tag])
  {
    hide IsLastOf, MatchesFirst;
    var after, more := d[k := tag], tags + [tag];
    NewIsLast(tags, tag);
    forall i, j | 0 <= i < j < |d|
      ensures MatchesFirst(more, after[i].fullMatch, after[j].fullMatch) && d[i].fullMatch != d[j].fullMatch
    {
      FirstStays(tags, tag, d[i].fullMatch, d[j].fullMatch);
    }
    forall i | 0 <= i < |d| && i != k ensures IsLastOf(more, after[i]) {
      LastStays(tags, tag, d[i]);
    }
    OccursAfterwards(tags, d, tag, after);
  }

  lemma OccursAfterwards(tags: seq<Tag>, d: seq<Tag>, tag: Tag, after: seq<Tag>)
    requires forall k :: 0 <= k < |tags| ==> Occurs(d, tags[k].fullMatch)
    requires |d| <= |after| && forall i :: 0 <= i < |d| ==> after[i].fullMatch == d[i].fullMatch
    requires Occurs(after, tag.fullMatch) || Occurs(d, tag.fullMatch)
    ensures forall k :: 0 <= k < |tags| + 1 ==> Occurs(after, (tags + [tag])[k].fullMatch)
  {
    forall x | Occurs(d, x) ensures Occurs(after, x) {
      var i :| 0 <= i < |d| && d[i].fullMatch == x;
      assert after[i].fullMatch == x;
    }
  }

  lemma AppendKeepsDistinct(tags: seq<Tag>, d: seq<Tag>, tag: Tag)
    requires AreDistinct(tags, d) && !Occurs(d, tag.fullMatch)
    ensures AreDistinct(tags + [tag], d + [tag])
  {
    hide IsLastOf, MatchesFirst;
    var after, more := d + [tag], tags + [tag];
    NewIsLast(tags, tag);
    assert !Occurs(tags, tag.fullMatch);
    forall i | 0 <= i < |d| ensures IsLastOf(more, d[i]) && MatchesFirst(more, d[i].fullMatch, tag.fullMatch) {
      NewIsFirstAfter(tags, tag, d[i]);
      LastStays(tags, tag, d[i]);
    }
    forall i, j | 0 <= i < j < |d| ensures MatchesFirst(more, d[i].fullMatch, d[j].fullMatch) {
      FirstStays(tags, tag, d[i].fullMatch, d[j].fullMatch);
    }
    assert after[|d|].fullMatch == tag.fullMatch;
    OccursAfterwards(tags, d, tag, after);
  }

  /** texts starts at the content; each tag in turn is replaced by its source's normalised text. */
  ghost predicate IsChain(ops: TextOps, content: string, d: seq<Tag>, contents: map<Path, string>, texts: seq<string>) {
    && |texts| == |d| + 1 && texts[0] == content
    && forall i :: 0 <= i < |d| ==>
         d[i].source in contents && texts[i + 1] == ops.splice(texts[i], d[i], ops.normalize(contents[d[i].source]))
  }

  lemma {:induction false} SplicedIsChain(ops: TextOps, content: string, d: seq<Tag>, contents: map<Path, string>)
      returns (texts: seq<string>)
    requires forall i :: 0 <= i < |d| ==> d[i].source in contents
    ensures IsChain(ops, content, d, contents, texts) && texts[|d|] == Spliced(ops, content, d, contents)
  {
    if d == [] {
      texts := [content];
    } else {
      var n := |d| - 1;
      var before := SplicedIsChain(ops, content, d[..n], contents);
      texts := before + [ops.splice(before[n], d[n], ops.normalize(contents[d[n].source]))];
      assert forall i :: 0 <= i < n ==> d[..n][i] == d[i];
    }
  }

  ghost predicate SourcesOf(tags: seq<Tag>, sources: seq<Path>) {
    |sources| == |tags| && forall i :: 0 <= i < |tags| ==> sources[i] == tags[i].source
  }

  /** The outcome when all tags name sources and all sources have tags: the chain over the distinct tags decides. */
  ghost predicate EmbedsTags(ops: TextOps, content: string, contents: map<Path, string>, r: Outcome) {
    exists d, texts, named ::
      && AreDistinct(ops.tags(content), d) && IsChain(ops, content, d, contents, texts) && SourcesOf(d, named)
      && r == if texts[|d|] == content then NoChange(named) else Update(named, texts[|d|])
  }

  /** The outcome for a text, told from its tags, its sources and what they contribute. */
  ghost predicate Explains(ops: TextOps, text: string, sources: seq<Path>, contents: map<Path, string>, r: Outcome) {
    var content := ops.normalize(text);
    exists named :: SourcesOf(ops.tags(content), named) &&
      if exists s :: s in named && s !in sources then
        r.InvalidSource? && IsLeftOver(r.invalid, named, sources)
      else if exists s :: s in sources && s !in named then
        r.UnreferencedSource? && IsLeftOver(r.unreferenced, sources, named)
      else if ops.tags(content) == [] then
        r == NoMatch
      else
        EmbedsTags(ops, content, contents, r)
  }

  lemma ProcessedIsExplained(ops: TextOps, text: string, sources: seq<Path>, contents: map<Path, string>)
    requires forall s :: s in sources ==> s in contents
    ensures Explains(ops, text, sources, contents, Processed(ops, text, sources, contents))
  {
    var content := ops.normalize(text);
    var tags := ops.tags(content);
    var named := TagSources(tags);
    WithoutIsEmpty(named, sources);
    WithoutIsEmpty(sources, named);
    WithoutIsLeftOver(named, sources);
    WithoutIsLeftOver(sources, named);
    hide IsLeftOver, Without, EmbedsTags;
    assert SourcesOf(tags, named);
    if Without(named, sources) == [] {
      assert forall i :: 0 <= i < |tags| ==> named[i] == tags[i].source;
      UniqueEmbeds(ops, content, contents);
    }
  }

  lemma UniqueEmbeds(ops: TextOps, content: string, contents: map<Path, string>)
    requires forall i :: 0 <= i < |ops.tags(content)| ==> ops.tags(content)[i].source in contents
    ensures
      var d := Unique(ops.tags(content));
      var updated := Spliced(ops, content, d, contents);
      EmbedsTags(ops, content, contents, if content == updated then NoChange(TagSources(d)) else Update(TagSources(d), updated))
  {
    var d := Unique(ops.tags(content));
    UniqueIsDistinct(ops.tags(content));
    var texts := SplicedIsChain(ops, content, d, contents);
    ChainEmbeds(ops, content, contents, d, texts);
  }

  lemma ChainEmbeds(ops: TextOps, content: string, contents: map<Path, string>, d: seq<Tag>, texts: seq<string>)
    requires AreDistinct(ops.tags(content), d) && IsChain(ops, content, d, contents, texts)
    ensures EmbedsTags(ops, content, contents,
              if content == texts[|d|] then NoChange(TagSources(d)) else Update(TagSources(d), texts[|d|]))
  {
    hide AreDistinct;
    assert SourcesOf(d, TagSources(d));
    hide SourcesOf, TagSources;
  }

  // ----- What the results of all destinations mean

  /** The text a source contributes: its update without the marker line if it has one, or its own text. */
  function Contribution(ops: TextOps, sourceMap: map<Path, string>, updated: map<Path, string>, s: Path): string
    requires s in sourceMap
  {
    if s in updated then ops.stripMarker(updated[s]) else sourceMap[s]
  }

  function Contents(ops: TextOps, sourceMap: map<Path, string>, updated: map<Path, string>, sources: seq<Path>): map<Path, string>
    requires forall s :: s in sources ==> s in sourceMap
  {
    map s | s in sources :: Contribution(ops, sourceMap, updated, s)
  }

  ghost function Updates(results: map<Path, Outcome>): map<Path, string> {
    map d | d in results && results[d].Update? :: results[d].updatedContent
  }

  ghost predicate WellFormed(entries: map<Path, DestinationEntry>, sourceMap: map<Path, string>) {
    forall d, s :: d in entries && s in entries[d].sources ==> s in sourceMap
  }

  /** d's result is what processing gives for its text and the final texts of all its sources. */
  ghost predicate Means(
      ops: TextOps, entries: map<Path, DestinationEntry>, sourceMap: map<Path, string>, results: map<Path, Outcome>, d: Path)
    requires WellFormed(entries, sourceMap)
  {
    && d in entries && d in results
    && results[d] == Processed(ops, entries[d].content, entries[d].sources,
                               Contents(ops, sourceMap, Updates(results), entries[d].sources))
  }

  /** The recursive meaning: every result is the processing of the final texts, updates folded in. */
  ghost predicate Solves(
      ops: TextOps, entries: map<Path, DestinationEntry>, sourceMap: map<Path, string>, results: map<Path, Outcome>)
    requires WellFormed(entries, sourceMap)
  {
    results.Keys == entries.Keys && forall d :: d in entries ==> Means(ops, entries, sourceMap, results, d)
  }

  /** g records exactly the dependencies between the entries. */
  ghost predicate Records(g: Graph, entries: map<Path, DestinationEntry>) {
    && g.dependencies.Keys == entries.Keys
    && forall d, s :: d in entries && s in entries[d].sources && s in entries ==> Depends(g, d, s)
  }

  lemma EqualUpdatesContributeEqually(
      ops: TextOps, sourceMap: map<Path, string>, a: map<Path, Outcome>, b: map<Path, Outcome>, sources: seq<Path>)
    requires forall s :: s in sources ==> s in sourceMap
    requires forall s :: s in sources ==> (s in a <==> s in b) && (s in a ==> a[s] == b[s])
    ensures Contents(ops, sourceMap, Updates(a), sources) == Contents(ops, sourceMap, Updates(b), sources)
  {
  }

  /** On an ordered graph the recursive meaning is unique, so the choice of order cannot matter. */
  lemma {:induction false} MeaningIsUnique(
      ops: TextOps, entries: map<Path, DestinationEntry>, sourceMap: map<Path, string>, g: Graph, order: seq<Path>,
      a: map<Path, Outcome>, b: map<Path, Outcome>, n: nat)
    requires WellFormed(entries, sourceMap) && Records(g, entries) && Ordered(g, order) && n <= |order|
    requires Solves(ops, entries, sourceMap, a) && Solves(ops, entries, sourceMap, b)
    requires forall d :: d in order ==> d in entries
    ensures forall d :: d in order[..n] ==> a[d] == b[d]
  {
    if n > 0 {
      MeaningIsUnique(ops, entries, sourceMap, g, order, a, b, n - 1);
      var d := order[n - 1];
      assert order[..n] == order[..n - 1] + [d];
      SourcesComeFirst(entries, g, order, n - 1);
      assert Means(ops, entries, sourceMap, a, d) && Means(ops, entries, sourceMap, b, d);
      hide Processed, Ordered, Records, Solves;
      EqualUpdatesContributeEqually(ops, sourceMap, a, b, entries[d].sources);
    }
  }

  lemma SourcesComeFirst(entries: map<Path, DestinationEntry>, g: Graph, order: seq<Path>, n: nat)
    requires Records(g, entries) && Ordered(g, order) && n < |order| && order[n] in entries
    ensures forall s :: s in entries[order[n]].sources && s in entries ==> s in order[..n]
  {
    forall s | s in entries[order[n]].sources && s in entries ensures s in order[..n] {
      assert Depends(g, order[n], s);
    }
  }

  lemma OneMeaning(
      ops: TextOps, entries: map<Path, DestinationEntry>, sourceMap: map<Path, string>, g: Graph, order: seq<Path>,
      a: map<Path, Outcome>, b: map<Path, Outcome>)
    requires WellFormed(entries, sourceMap) && Records(g, entries) && Ordered(g, order)
    requires Solves(ops, entries, sourceMap, a) && Solves(ops, entries, sourceMap, b)
    requires forall d :: d in order <==> d in entries
    ensures a == b
  {
    MeaningIsUnique(ops, entries, sourceMap, g, order, a, b, |order|);
    assert order[..|order|] == order;
    assert forall d :: d in a ==> a[d] == b[d];
  }

  // ----- The pass

  method CollectWithout(s: seq<Path>, t: seq<Path>) returns (r: seq<Path>)
    ensures r == Without(s, t)
  {
    r := [];
    for i := 0 to |s|
      invariant r == Without(s[..i], t)
    {
      assert s[..i + 1][..i] == s[..i];
      if s[i] !in t {
        r := r + [s[i]];
      }
    }
    assert s[..|s|] == s;
  }

  method SpliceAll(
      ops: TextOps, content: string, matches: seq<Tag>, sources: seq<Path>,
      sourceMap: map<Path, string>, updatedContentMap: map<Path, string>)
      returns (updatedContent: string)
    requires forall s :: s in sources ==> s in sourceMap
    requires forall i :: 0 <= i < |matches| ==> matches[i].source in sources
    ensures updatedContent == Spliced(ops, content, matches, Contents(ops, sourceMap, updatedContentMap, sources))
  {
    updatedContent := content;
    for i := 0 to |matches|
      invariant updatedContent == Spliced(ops, content, matches[..i], Contents(ops, sourceMap, updatedContentMap, sources))
    {
      var tag := matches[i];
      var sourceContent := if tag.source in updatedContentMap then updatedContentMap[tag.source] else sourceMap[tag.source];
      if tag.source in updatedContentMap {
        sourceContent := ops.stripMarker(sourceContent);
      }
      sourceContent := ops.normalize(sourceContent);
      assert matches[..i + 1][..i] == matches[..i];
      updatedContent := ops.splice(updatedContent, tag, sourceContent);
    }
    assert matches[..|matches|] == matches;
  }

  method ProcessDestination(
      ops: TextOps, entry: DestinationEntry, sourceMap: map<Path, string>, updatedContentMap: map<Path, string>)
      returns (r: Outcome)
    requires forall s :: s in entry.sources ==> s in sourceMap
    ensures r == Processed(ops,
      if entry.path in updatedContentMap then ops.stripMarker(updatedContentMap[entry.path]) else entry.content,
      entry.sources, Contents(ops, sourceMap, updatedContentMap, entry.sources))
    ensures
      var text := if entry.path in updatedContentMap then ops.stripMarker(updatedContentMap[entry.path]) else entry.content;
      exists contents :: Explains(ops, text, entry.sources, contents, r)
        && forall s :: s in entry.sources ==>
             && s in contents
             && contents[s] == if s in updatedContentMap then ops.stripMarker(updatedContentMap[s]) else sourceMap[s]
  {
    ProcessedIsExplained(ops,
      if entry.path in updatedContentMap then ops.stripMarker(updatedContentMap[entry.path]) else entry.content,
      entry.sources, Contents(ops, sourceMap, updatedContentMap, entry.sources));
    hide Explains;
    var content :=
      if entry.path in updatedContentMap then ops.stripMarker(updatedContentMap[entry.path]) else entry.content;
    content := ops.normalize(content);

    var allTags := ops.tags(content);
    var invalid := CollectWithout(TagSources(allTags), entry.sources);
    if invalid != [] {
      return InvalidSource(invalid);
    }
    var unreferenced := CollectWithout(entry.sources, TagSources(allTags));
    if unreferenced != [] {
      return UnreferencedSource(unreferenced);
    }
    if allTags == [] {
      return NoMatch;
    }

    WithoutIsEmpty(TagSources(allTags), entry.sources);
    assert forall i :: 0 <= i < |allTags| ==> TagSources(allTags)[i] == allTags[i].source;
    var uniqueMatches := Unique(allTags);
    var updatedContent := SpliceAll(ops, content, uniqueMatches, entry.sources, sourceMap, updatedContentMap);
    if content == updatedContent {
      return NoChange(TagSources(uniqueMatches));
    }
    return Update(TagSources(uniqueMatches), updatedContent);
  }

  function EntryMap(entries: seq<DestinationEntry>): (m: map<Path, DestinationEntry>)
    requires NoDuplicates(Paths(entries))
    ensures forall d :: d in m <==> d in Paths(entries)
    ensures forall i :: 0 <= i < |entries| ==> entries[i].path in m && m[entries[i].path] == entries[i]
  {
    assert forall i :: 0 <= i < |entries| ==> Paths(entries)[i] == entries[i].path;
    map i | 0 <= i < |entries| :: entries[i].path := entries[i]
  }

  /** Results so far, which mean what they should because no later result can touch their sources. */
  ghost predicate MeansSoFar(
      ops: TextOps, entries: map<Path, DestinationEntry>, sourceMap: map<Path, string>, results: map<Path, Outcome>,
      order: seq<Path>, n: nat)
    requires WellFormed(entries, sourceMap) && n <= |order|
  {
    && (forall d :: d in results <==> d in order[..n])
    && forall i :: 0 <= i < n ==> Means(ops, entries, sourceMap, results, order[i])
  }

  lemma LaterResultsDoNotMatter(
      ops: TextOps, entries: map<Path, DestinationEntry>, sourceMap: map<Path, string>, g: Graph, order: seq<Path>,
      results: map<Path, Outcome>, n: nat, outcome: Outcome)
    requires WellFormed(entries, sourceMap) && Records(g, entries) && Ordered(g, order) && NoDuplicates(order)
    requires n < |order| && (forall d :: d in order <==> d in entries)
    requires MeansSoFar(ops, entries, sourceMap, results, order, n)
    requires outcome == Processed(ops, entries[order[n]].content, entries[order[n]].sources,
                                  Contents(ops, sourceMap, Updates(results), entries[order[n]].sources))
    ensures MeansSoFar(ops, entries, sourceMap, results[order[n] := outcome], order, n + 1)
  {
    hide Processed, Ordered, Records;
    var more := results[order[n] := outcome];
    assert order[..n + 1] == order[..n] + [order[n]];
    forall i | 0 <= i <= n ensures Means(ops, entries, sourceMap, more, order[i]) {
      SourcesComeFirst(entries, g, order, i);
      assert order[n] !in order[..i];
      EqualUpdatesContributeEqually(ops, sourceMap, results, more, entries[order[i]].sources);
      assert i < n ==> Means(ops, entries, sourceMap, results, order[i]);
    }
  }

  lemma NoUpdates()
    ensures Updates(map[]) == map[]
  {
  }

  lemma UpdatesGrow(results: map<Path, Outcome>, d: Path, outcome: Outcome)
    requires d !in results
    ensures d !in Updates(results)
    ensures Updates(results[d := outcome]) ==
      if outcome.Update? then Updates(results)[d := outcome.updatedContent] else Updates(results)
  {
  }

  /** The results of a list of destinations, as a map. */
  function ResultMap(order: seq<Path>, embeds: seq<Outcome>): (results: map<Path, Outcome>)
    requires NoDuplicates(order) && |embeds| == |order|
  {
    map i | 0 <= i < |order| :: order[i] := embeds[i]
  }

  /** What a source contributes in the end: its update without the marker line if it was updated, or its own text. */
  ghost predicate Contributes(
      ops: TextOps, sourceMap: map<Path, string>, order: seq<Path>, outcomes: seq<Outcome>, s: Path, x: string)
    requires |outcomes| == |order| && s in sourceMap
  {
    if exists j :: 0 <= j < |order| && order[j] == s && outcomes[j].Update? then
      exists j :: 0 <= j < |order| && order[j] == s && outcomes[j].Update? && x == ops.stripMarker(outcomes[j].updatedContent)
    else
      x == sourceMap[s]
  }

  /** The outcome of a destination is told by its text and the final texts of its sources. */
  ghost predicate Told(
      ops: TextOps, entry: DestinationEntry, sourceMap: map<Path, string>, order: seq<Path>, outcomes: seq<Outcome>, r: Outcome)
    requires |outcomes| == |order| && forall s :: s in entry.sources ==> s in sourceMap
  {
    exists contents :: Explains(ops, entry.content, entry.sources, contents, r)
      && forall s :: s in entry.sources ==> s in contents && Contributes(ops, sourceMap, order, outcomes, s, contents[s])
  }

  lemma SolutionsAreTold(
      ops: TextOps, entries: map<Path, DestinationEntry>, sourceMap: map<Path, string>, order: seq<Path>,
      outcomes: seq<Outcome>, i: nat)
    requires WellFormed(entries, sourceMap) && NoDuplicates(order) && |outcomes| == |order| && i < |order|
    requires Solves(ops, entries, sourceMap, ResultMap(order, outcomes)) && order[i] in entries
    ensures Told(ops, entries[order[i]], sourceMap, order, outcomes, outcomes[i])
  {
    var results := ResultMap(order, outcomes);
    var entry := entries[order[i]];
    assert Means(ops, entries, sourceMap, results, order[i]) && results[order[i]] == outcomes[i];
    hide Solves, Processed, Explains;
    var contents := Contents(ops, sourceMap, Updates(results), entry.sources);
    ProcessedIsExplained(ops, entry.content, entry.sources, contents);
    forall s | s in entry.sources ensures Contributes(ops, sourceMap, order, outcomes, s, contents[s]) {
      ResultsContribute(ops, sourceMap, order, outcomes, s);
    }
  }

  lemma ResultsContribute(
      ops: TextOps, sourceMap: map<Path, string>, order: seq<Path>, outcomes: seq<Outcome>, s: Path)
    requires NoDuplicates(order) && |outcomes| == |order| && s in sourceMap
    ensures Contributes(ops, sourceMap, order, outcomes, s,
                        Contribution(ops, sourceMap, Updates(ResultMap(order, outcomes)), s))
  {
    var results := ResultMap(order, outcomes);
    assert forall j :: 0 <= j < |order| ==> results[order[j]] == outcomes[j];
    assert s in results ==> exists j :: 0 <= j < |order| && order[j] == s;
  }

  lemma AllAreTold(
      ops: TextOps, entries: map<Path, DestinationEntry>, sourceMap: map<Path, string>, order: seq<Path>,
      outcomes: seq<Outcome>)
    requires WellFormed(entries, sourceMap) && NoDuplicates(order) && |outcomes| == |order|
    requires Solves(ops, entries, sourceMap, ResultMap(order, outcomes)) && forall d :: d in order ==> d in entries
    ensures forall i :: 0 <= i < |order| ==> Told(ops, entries[order[i]], sourceMap, order, outcomes, outcomes[i])
  {
    hide Told, Solves, NoDuplicates;
    forall i | 0 <= i < |order| ensures Told(ops, entries[order[i]], sourceMap, order, outcomes, outcomes[i]) {
      SolutionsAreTold(ops, entries, sourceMap, order, outcomes, i);
    }
  }

  /** One pass in topological order gives every destination its recursive meaning. */
  method EmbedInOrder(
      ops: TextOps, entries: map<Path, DestinationEntry>, sourceMap: map<Path, string>, g: Graph, order: seq<Path>)
      returns (embeds: seq<Outcome>)
    requires WellFormed(entries, sourceMap) && Records(g, entries) && Ordered(g, order) && NoDuplicates(order)
    requires forall d :: d in order <==> d in entries
    requires forall d :: d in entries ==> entries[d].path == d
    ensures |embeds| == |order| && Solves(ops, entries, sourceMap, ResultMap(order, embeds))
    ensures forall i :: 0 <= i < |order| ==> Told(ops, entries[order[i]], sourceMap, order, embeds, embeds[i])
  {
    hide Processed, Means, Ordered, Records, Updates, Contents, Explains, Told;
    assert Updates(map[]) == map[] by { NoUpdates(); }
    embeds := [];
    ghost var results: map<Path, Outcome> := map[];
    var updatedContentMap: map<Path, string> := map[];
    for i := 0 to |order|
      invariant |embeds| == i
      invariant MeansSoFar(ops, entries, sourceMap, results, order, i)
      invariant forall j :: 0 <= j < i ==> embeds[j] == results[order[j]]
      invariant updatedContentMap == Updates(results)
    {
      var destinationPath := order[i];
      forall j | 0 <= j < i ensures order[j] != destinationPath && order[j] in results {
        assert order[j] in order[..i];
      }
      var anEmbed := ProcessDestination(ops, entries[destinationPath], sourceMap, updatedContentMap);
      assert destinationPath !in results by {
        assert destinationPath !in order[..i];
      }
      UpdatesGrow(results, destinationPath, anEmbed);
      LaterResultsDoNotMatter(ops, entries, sourceMap, g, order, results, i, anEmbed);
      if anEmbed.Update? {
        updatedContentMap := updatedContentMap[destinationPath := anEmbed.updatedContent];
      }
      results := results[destinationPath := anEmbed];
      embeds := embeds + [anEmbed];
    }
    assert order[..|order|] == order;
    assert results == ResultMap(order, embeds);
    AllAreTold(ops, entries, sourceMap, order, embeds);
  }

  datatype EmbedResult = CircularDependency(cycle: seq<Path>) | Embeds(order: seq<Path>, outcomes: seq<Outcome>)

  method EmbedAll(ops: TextOps, entries: seq<DestinationEntry>, sourceMap: map<Path, string>)
      returns (r: EmbedResult)
    requires NoDuplicates(Paths(entries))
    requires forall i :: 0 <= i < |entries| ==> NoDuplicates(entries[i].sources)
    requires forall i, s :: 0 <= i < |entries| && s in entries[i].sources ==> s in sourceMap
    ensures WellFormed(EntryMap(entries), sourceMap)
    ensures r.CircularDependency? <==> HasCycle(GraphOf(entries))
    ensures r.CircularDependency? ==> IsCycle(GraphOf(entries), r.cycle)
    ensures r.Embeds? ==>
      && NoDuplicates(r.order) && (forall d :: d in r.order <==> d in Paths(entries))
      && |r.outcomes| == |r.order|
      && Solves(ops, EntryMap(entries), sourceMap, ResultMap(r.order, r.outcomes))
    ensures r.Embeds? ==> forall i, k :: 0 <= i < |r.order| && 0 <= k < |entries| && entries[k].path == r.order[i] ==>
      Told(ops, entries[k], sourceMap, r.order, r.outcomes, r.outcomes[i])
  {
    hide Solves, Closed, WellFormed, Records, IsCycle, Ordered, Depends, GraphOf, Told;
    var graph := BuildDependencyGraph(entries);
    GraphRecordsEntries(graph, entries, sourceMap);
    var circular := DetectCircularDependency(graph);
    if circular.Some? {
      return CircularDependency(circular.value);
    }
    var sorted := TopologicalSort(graph);
    match sorted
    case Err(_) =>
      assert false;
      r := CircularDependency([]);
    case Ok(order) =>
      var outcomes := EmbedInOrder(ops, EntryMap(entries), sourceMap, graph, order);
      r := Embeds(order, outcomes);
  }

  lemma GraphRecordsEntries(g: Graph, entries: seq<DestinationEntry>, sourceMap: map<Path, string>)
    requires NoDuplicates(Paths(entries)) && Closed(g) && g.destinations == Paths(entries)
    requires forall i, b :: 0 <= i < |entries| ==>
      (Depends(g, entries[i].path, b) <==> b in entries[i].sources && b in g.destinations)
    requires forall i, s :: 0 <= i < |entries| && s in entries[i].sources ==> s in sourceMap
    ensures Records(g, EntryMap(entries)) && WellFormed(EntryMap(entries), sourceMap)
    ensures forall d :: d in EntryMap(entries) ==> EntryMap(entries)[d].path == d
  {
    forall d | d in EntryMap(entries)
      ensures exists i :: 0 <= i < |entries| && entries[i].path == d && EntryMap(entries)[d] == entries[i]
    {
      var i :| 0 <= i < |Paths(entries)| && Paths(entries)[i] == d;
      assert entries[i].path == d;
    }
    forall d, s | d in EntryMap(entries) && s in EntryMap(entries)[d].sources
      ensures s in sourceMap && (s in EntryMap(entries) ==> Depends(g, d, s))
    {
      var i :| 0 <= i < |entries| && entries[i].path == d && EntryMap(entries)[d] == entries[i];
    }
  }
}
