/**
 What the ZIP reader finds, told from the bytes: where the headers stand, which of them count, and that an
 archive of any writer, with extra fields and comments wherever the format has them, is read in full.
 */
module ZipLayout {
  import opened JsMembers
  import opened Options
  import opened ZipArchive

  // ----- Bytes

  /** Numbers are written with their low byte first. */
  lemma LowByteFirst(b: seq<Byte>, at: nat)
    ensures at + 2 <= |b| ==> ReadUInt16LE(b, at) % 0x100 == b[at] && ReadUInt16LE(b, at) / 0x100 == b[at + 1]
    ensures at + 4 <= |b| ==>
      && ReadUInt32LE(b, at) % 0x1_0000 == ReadUInt16LE(b, at)
      && ReadUInt32LE(b, at) / 0x1_0000 == ReadUInt16LE(b, at + 2)
  {
  }

  /** The three signatures are the letters PK and the two bytes of their kind. */
  lemma SignaturesAreBytes(b: seq<Byte>, at: nat)
    requires at + 4 <= |b|
    ensures ReadUInt32LE(b, at) == END_SIGNATURE <==> b[at..at + 4] == [0x50, 0x4B, 5, 6]
    ensures ReadUInt32LE(b, at) == CENTRAL_SIGNATURE <==> b[at..at + 4] == [0x50, 0x4B, 1, 2]
    ensures ReadUInt32LE(b, at) == LOCAL_SIGNATURE <==> b[at..at + 4] == [0x50, 0x4B, 3, 4]
  {
    var h := b[at..at + 4];
    assert h == [b[at], b[at + 1], b[at + 2], b[at + 3]];
  }

  /** An end record stands here: its comment reaches to the end, and the directory it tells of ends where it begins. */
  predicate EndStands(b: seq<Byte>, at: nat) {
    && at + 22 <= |b| && b[at..at + 4] == [0x50, 0x4B, 5, 6]
    && |b| - (at + 22) == ReadUInt16LE(b, at + 20)
    && at - ReadUInt32LE(b, at + 16) == ReadUInt32LE(b, at + 12)
  }

  /** The end record taken is the last there is; without one nothing is found. */
  lemma EndIsTold(codec: Codec, b: seq<Byte>)
    ensures
      var r := EndOffset(b, |b| - 22);
      && (r >= 0 ==> EndStands(b, r) && forall at: nat :: at > r ==> !EndStands(b, at))
      && (r < 0 ==> (forall at: nat :: !EndStands(b, at)) && Found(codec, b) == [])
  {
    hide ReadUInt16LE, ReadUInt32LE;
    forall at: nat | at + 22 <= |b| ensures EndStands(b, at) <==> IsEndRecord(b, at) {
      SignaturesAreBytes(b, at);
    }
  }

  // ----- Where the headers stand

  /** What must be there for a central header to be read: its fixed part, its signature and its name. */
  predicate Readable(b: seq<Byte>, at: nat) {
    && at + 46 <= |b| && ReadUInt32LE(b, at) == CENTRAL_SIGNATURE
    && at + 46 + ReadUInt16LE(b, at + 28) <= |b|
  }

  /** Where the header after this one stands: past the name, the extra field and the comment. */
  predicate Follows(b: seq<Byte>, at: nat, next: nat) {
    && at + 46 <= |b|
    && next == at + 46 + ReadUInt16LE(b, at + 28) + ReadUInt16LE(b, at + 30) + ReadUInt16LE(b, at + 32)
  }

  /** A chain of readable headers from the start, which ends at the count or before one that cannot be read. */
  ghost predicate IsChain(b: seq<Byte>, start: nat, count: nat, cursors: seq<nat>) {
    && |cursors| <= count
    && (forall k {:trigger cursors[k]} :: 0 <= k < |cursors| ==> Readable(b, cursors[k]))
    && (cursors != [] ==> cursors[0] == start)
    && (forall j, k :: 0 <= j < k < |cursors| && k == j + 1 ==> Follows(b, cursors[j], cursors[k]))
    && (cursors == [] && count > 0 ==> !Readable(b, start))
    && (0 < |cursors| < count ==> forall next: nat :: Follows(b, cursors[|cursors| - 1], next) ==> !Readable(b, next))
  }

  lemma {:induction false} WalkIsChain(b: seq<Byte>, start: nat, count: nat)
    ensures IsChain(b, start, count, Walk(b, start, count))
    decreases count
  {
    hide ReadUInt16LE, ReadUInt32LE;
    if count > 0 && IsEntry(b, start) {
      var rest := Walk(b, start + EntryLength(b, start), count - 1);
      WalkIsChain(b, start + EntryLength(b, start), count - 1);
      ChainOneMore(b, start, start + EntryLength(b, start), count, rest);
    }
  }

  lemma ChainOneMore(b: seq<Byte>, start: nat, next: nat, count: nat, rest: seq<nat>)
    requires count > 0 && Readable(b, start) && Follows(b, start, next) && IsChain(b, next, count - 1, rest)
    ensures IsChain(b, start, count, [start] + rest)
  {
    hide ReadUInt16LE, ReadUInt32LE, Readable;
    var all := [start] + rest;
    assert forall k :: 0 < k < |all| ==> all[k] == rest[k - 1];
    if rest == [] {
      assert forall other: nat :: Follows(b, start, other) ==> other == next;
    }
  }

  /**
   On every byte string, the headers looked at are those of the chain from the place the end record gives, as many
   as it records; without an end record there are none.
   */
  lemma CursorsAreTheChain(b: seq<Byte>)
    ensures
      var end := EndOffset(b, |b| - 22);
      if end < 0 then Cursors(b) == []
      else IsChain(b, ReadUInt32LE(b, end + 16), ReadUInt16LE(b, end + 10), Cursors(b))
  {
    hide ReadUInt16LE, ReadUInt32LE, IsChain;
    var end := EndOffset(b, |b| - 22);
    if end >= 0 {
      WalkIsChain(b, ReadUInt32LE(b, end + 16), ReadUInt16LE(b, end + 10));
    }
  }

  /** There is one such chain. */
  lemma {:induction false} ChainIsUnique(b: seq<Byte>, start: nat, count: nat, x: seq<nat>, y: seq<nat>)
    requires IsChain(b, start, count, x) && IsChain(b, start, count, y)
    ensures x == y
  {
    forall k | 0 <= k < |x| && k < |y| ensures x[k] == y[k] {
      SamePlace(b, start, count, x, y, k);
    }
    NoLonger(b, start, count, x, y);
    NoLonger(b, start, count, y, x);
  }

  lemma {:induction false} SamePlace(b: seq<Byte>, start: nat, count: nat, x: seq<nat>, y: seq<nat>, k: nat)
    requires IsChain(b, start, count, x) && IsChain(b, start, count, y) && k < |x| && k < |y|
    ensures x[k] == y[k]
  {
    hide ReadUInt16LE, ReadUInt32LE;
    if k > 0 {
      SamePlace(b, start, count, x, y, k - 1);
      assert Follows(b, x[k - 1], x[k]) && Follows(b, y[k - 1], y[k]);
    }
  }

  lemma NoLonger(b: seq<Byte>, start: nat, count: nat, x: seq<nat>, y: seq<nat>)
    requires IsChain(b, start, count, x) && IsChain(b, start, count, y)
    ensures |y| <= |x|
  {
    hide IsChain, Readable, Follows;
    if |x| < |y| {
      ChainGoesOn(b, start, count, y, |x|);
      if x != [] { SamePlace(b, start, count, x, y, |x| - 1); }
      ChainEnds(b, start, count, x);
    }
  }

  lemma ChainGoesOn(b: seq<Byte>, start: nat, count: nat, y: seq<nat>, n: nat)
    requires IsChain(b, start, count, y) && n < |y|
    ensures Readable(b, y[n]) && n < count
    ensures if n == 0 then y[n] == start else Follows(b, y[n - 1], y[n])
  {
    hide Readable, Follows;
  }

  lemma ChainEnds(b: seq<Byte>, start: nat, count: nat, x: seq<nat>)
    requires IsChain(b, start, count, x) && |x| < count
    ensures x == [] ==> !Readable(b, start)
    ensures x != [] ==> forall next: nat :: Follows(b, x[|x| - 1], next) ==> !Readable(b, next)
  {
    hide Readable, Follows;
  }

  // ----- Which of the headers count

  /** The content the header at the cursor stands for: stored bytes as they are, deflated ones inflated. */
  predicate Holds(codec: Codec, b: seq<Byte>, cursor: nat, content: seq<Byte>) {
    && cursor + 46 <= |b|
    && var local, size := ReadUInt32LE(b, cursor + 42), ReadUInt32LE(b, cursor + 20);
    && local + 30 <= |b| && ReadUInt32LE(b, local) == LOCAL_SIGNATURE
    && var start := local + 30 + ReadUInt16LE(b, local + 26) + ReadUInt16LE(b, local + 28);
       && start + size <= |b|
       && if ReadUInt16LE(b, cursor + 10) == STORED then content == b[start..start + size]
          else ReadUInt16LE(b, cursor + 10) == DEFLATE && codec.inflate(b[start..start + size]) == Some(content)
  }

  lemma LocatedIsHeld(codec: Codec, b: seq<Byte>, cursor: nat)
    requires cursor + 46 <= |b|
    ensures forall content :: Holds(codec, b, cursor, content) <==> Located(codec, b, cursor) == Some(content)
  {
    hide ReadUInt16LE, ReadUInt32LE;
  }

  /** The entry that the header at the cursor names and holds. */
  predicate Stands(codec: Codec, b: seq<Byte>, cursor: nat, entry: Entry<Byte>) {
    && Readable(b, cursor)
    && entry.name == codec.decodeName(b[cursor + 46..cursor + 46 + ReadUInt16LE(b, cursor + 28)])
    && Holds(codec, b, cursor, entry.content)
  }

  /** Every header that holds a content gives its entry, in order, and no other gives any. */
  ghost predicate Tells(codec: Codec, b: seq<Byte>, cursors: seq<nat>, entries: seq<Entry<Byte>>, at: seq<nat>) {
    && |at| == |entries|
    && (forall i {:trigger at[i]} :: 0 <= i < |at| ==> at[i] < |cursors| && Stands(codec, b, cursors[at[i]], entries[i]))
    && (forall i, j :: 0 <= i < j < |at| ==> at[i] < at[j])
    && (forall k: nat, content {:trigger Holds(codec, b, cursors[k], content)} ::
          k < |cursors| && Holds(codec, b, cursors[k], content) ==> k in at)
  }

  lemma {:induction false} EntriesAreTold(codec: Codec, b: seq<Byte>, cursors: seq<nat>) returns (at: seq<nat>)
    requires AllEntries(b, cursors)
    ensures Tells(codec, b, cursors, EntriesAt(codec, b, cursors), at)
  {
    if cursors == [] {
      at := [];
    } else {
      hide ReadUInt16LE, ReadUInt32LE, Tells, Located, Holds;
      var n := |cursors| - 1;
      var before := EntriesAreTold(codec, b, cursors[..n]);
      var last := cursors[n];
      LocatedIsHeld(codec, b, last);
      var located := Located(codec, b, last);
      at := if located.Some? then before + [n] else before;
      if located.Some? {
        NamedAndHeld(codec, b, last, located.value);
        TellsOneMore(codec, b, cursors, EntriesAt(codec, b, cursors[..n]), before,
                     Entry(NameAt(codec, b, last), located.value));
      } else {
        TellsNoMore(codec, b, cursors, EntriesAt(codec, b, cursors[..n]), before);
        assert EntriesAt(codec, b, cursors[..n]) + [] == EntriesAt(codec, b, cursors[..n]);
      }
    }
  }

  lemma NamedAndHeld(codec: Codec, b: seq<Byte>, cursor: nat, content: seq<Byte>)
    requires IsEntry(b, cursor) && Holds(codec, b, cursor, content)
    ensures Stands(codec, b, cursor, Entry(NameAt(codec, b, cursor), content))
  {
    hide ReadUInt16LE, ReadUInt32LE, Holds;
  }

  lemma TellsOneMore(
      codec: Codec, b: seq<Byte>, cursors: seq<nat>, entries: seq<Entry<Byte>>, at: seq<nat>, entry: Entry<Byte>)
    requires cursors != [] && Tells(codec, b, cursors[..|cursors| - 1], entries, at)
    requires Stands(codec, b, cursors[|cursors| - 1], entry)
    ensures Tells(codec, b, cursors, entries + [entry], at + [|cursors| - 1])
  {
    hide Holds, Stands;
    var n := |cursors| - 1;
    var more, all := at + [n], entries + [entry];
    forall i | 0 <= i < |at| ensures more[i] < n && Stands(codec, b, cursors[more[i]], all[i]) {
      assert cursors[..n][at[i]] == cursors[at[i]];
    }
    forall k: nat, content | k < |cursors| && Holds(codec, b, cursors[k], content) ensures k in more {
      if k < n {
        assert Holds(codec, b, cursors[..n][k], content);
      } else {
        assert more[|at|] == n;
      }
    }
  }

  lemma TellsNoMore(codec: Codec, b: seq<Byte>, cursors: seq<nat>, entries: seq<Entry<Byte>>, at: seq<nat>)
    requires cursors != [] && Tells(codec, b, cursors[..|cursors| - 1], entries, at)
    requires cursors[|cursors| - 1] + 46 <= |b| && Located(codec, b, cursors[|cursors| - 1]) == None
    ensures Tells(codec, b, cursors, entries, at)
  {
    hide Holds, Stands, Located;
    LocatedIsHeld(codec, b, cursors[|cursors| - 1]);
    var n := |cursors| - 1;
    forall i | 0 <= i < |at| ensures at[i] < n && Stands(codec, b, cursors[at[i]], entries[i]) {
      assert cursors[..n][at[i]] == cursors[at[i]];
    }
    forall k: nat, content | k < |cursors| && Holds(codec, b, cursors[k], content) ensures k in at {
      assert k < n;
      assert Holds(codec, b, cursors[..n][k], content);
    }
  }

  /** On every byte string, the entries found are those of the headers that hold a content, in their order. */
  lemma FoundIsTold(codec: Codec, b: seq<Byte>) returns (at: seq<nat>)
    ensures Tells(codec, b, Cursors(b), Found(codec, b), at)
  {
    hide Tells, Cursors, EntriesAt;
    at := EntriesAreTold(codec, b, Cursors(b));
  }

  // ----- Archives of any writer

  /** One file of an archive: all that its two headers carry besides the fixed fields. */
  datatype Member = Member(
    name: seq<Byte>, compression: nat, data: seq<Byte>, extra: seq<Byte>, comment: seq<Byte>,
    localName: seq<Byte>, localExtra: seq<Byte>)

  ghost predicate CentralStands(b: seq<Byte>, at: nat, m: Member, local: nat) {
    && at + 46 <= |b| && ReadUInt32LE(b, at) == CENTRAL_SIGNATURE
    && ReadUInt16LE(b, at + 10) == m.compression && ReadUInt32LE(b, at + 20) == |m.data|
    && ReadUInt16LE(b, at + 28) == |m.name| && ReadUInt16LE(b, at + 30) == |m.extra|
    && ReadUInt16LE(b, at + 32) == |m.comment| && ReadUInt32LE(b, at + 42) == local
    && StandsAt(b, at + 46, m.name + m.extra + m.comment)
  }

  ghost predicate LocalStands(b: seq<Byte>, at: nat, m: Member) {
    && at + 30 <= |b| && ReadUInt32LE(b, at) == LOCAL_SIGNATURE
    && ReadUInt16LE(b, at + 26) == |m.localName| && ReadUInt16LE(b, at + 28) == |m.localExtra|
    && StandsAt(b, at + 30, m.localName + m.localExtra + m.data)
  }

  /** The last end record that is accepted leads to the members' central headers, one right after the other. */
  ghost predicate IsArchive(b: seq<Byte>, members: seq<Member>, places: seq<nat>, locals: seq<nat>) {
    var end := EndOffset(b, |b| - 22);
    && |places| == |locals| == |members|
    && end >= 0 && ReadUInt16LE(b, end + 10) == |members|
    && (places != [] ==> places[0] == ReadUInt32LE(b, end + 16))
    && (forall k {:trigger members[k]} :: 0 <= k < |members| ==>
          CentralStands(b, places[k], members[k], locals[k]) && LocalStands(b, locals[k], members[k]))
    && (forall j, k {:trigger places[j], places[k]} :: 0 <= j < k < |places| && k == j + 1 ==>
          places[k] == places[j] + 46 + |members[j].name| + |members[j].extra| + |members[j].comment|)
  }

  /** What the member's data stands for. */
  predicate Unpacks(codec: Codec, m: Member, content: seq<Byte>) {
    if m.compression == STORED then content == m.data
    else m.compression == DEFLATE && codec.inflate(m.data) == Some(content)
  }

  lemma MemberStands(codec: Codec, b: seq<Byte>, at: nat, local: nat, m: Member, content: seq<Byte>)
    requires CentralStands(b, at, m, local) && LocalStands(b, local, m) && Unpacks(codec, m, content)
    ensures Readable(b, at) && Stands(codec, b, at, Entry(codec.decodeName(m.name), content))
  {
    hide ReadUInt16LE, ReadUInt32LE;
    assert m.name + m.extra + m.comment == [] + m.name + (m.extra + m.comment);
    StandsWithin(b, at + 46, [], m.name, m.extra + m.comment);
    assert m.localName + m.localExtra + m.data == (m.localName + m.localExtra) + m.data + [];
    StandsWithin(b, local + 30, m.localName + m.localExtra, m.data, []);
  }

  lemma PlacesAreTheChain(b: seq<Byte>, members: seq<Member>, places: seq<nat>, locals: seq<nat>)
    requires IsArchive(b, members, places, locals)
    ensures Cursors(b) == places
  {
    hide ReadUInt16LE, ReadUInt32LE, EndOffset;
    var end := EndOffset(b, |b| - 22);
    CursorsAreTheChain(b);
    ArchiveIsChain(b, members, places, locals);
    ChainIsUnique(b, ReadUInt32LE(b, end + 16), ReadUInt16LE(b, end + 10), Cursors(b), places);
  }

  lemma ArchiveIsChain(b: seq<Byte>, members: seq<Member>, places: seq<nat>, locals: seq<nat>)
    requires IsArchive(b, members, places, locals)
    ensures
      var end := EndOffset(b, |b| - 22);
      IsChain(b, ReadUInt32LE(b, end + 16), ReadUInt16LE(b, end + 10), places)
  {
    hide ReadUInt16LE, ReadUInt32LE, EndOffset, LocalStands, CentralStands, Readable, Follows;
    forall k | 0 <= k < |places| ensures Readable(b, places[k]) {
      assert CentralStands(b, places[k], members[k], locals[k]);
      CentralIsReadable(b, places[k], members[k], locals[k]);
    }
    forall j, k | 0 <= j < k < |places| && k == j + 1 ensures Follows(b, places[j], places[k]) {
      assert CentralStands(b, places[j], members[j], locals[j]);
      CentralIsReadable(b, places[j], members[j], locals[j]);
    }
  }

  lemma CentralIsReadable(b: seq<Byte>, at: nat, m: Member, local: nat)
    requires CentralStands(b, at, m, local)
    ensures Readable(b, at) && Follows(b, at, at + 46 + |m.name| + |m.extra| + |m.comment|)
  {
    hide ReadUInt16LE, ReadUInt32LE;
  }

  /** The entries found in an archive of any writer are its members, each under its name with what its data stands for. */
  lemma {:induction false} MembersAreFound(
      codec: Codec, b: seq<Byte>, members: seq<Member>, places: seq<nat>, locals: seq<nat>, entries: seq<Entry<Byte>>, n: nat)
    requires IsArchive(b, members, places, locals) && n <= |members| == |entries|
    requires forall k {:trigger entries[k]} :: 0 <= k < |entries| ==>
      entries[k].name == codec.decodeName(members[k].name) && Unpacks(codec, members[k], entries[k].content)
    ensures AllEntries(b, places[..n]) && EntriesAt(codec, b, places[..n]) == entries[..n]
  {
    hide ReadUInt16LE, ReadUInt32LE, CentralStands, LocalStands, Holds, Located, Unpacks, EntriesAt;
    if n == 0 {
      NothingAt(codec, b, places[..0]);
    } else {
      var k := n - 1;
      MembersAreFound(codec, b, members, places, locals, entries, k);
      assert members[k] == members[k] && entries[k] == entries[k];
      MemberStands(codec, b, places[k], locals[k], members[k], entries[k].content);
      LocatedIsHeld(codec, b, places[k]);
      WalkOneMore(codec, b, places[..k], places[k]);
      assert places[..n] == places[..k] + [places[k]] && entries[..n] == entries[..k] + [entries[k]];
    }
  }

  lemma NothingAt(codec: Codec, b: seq<Byte>, none: seq<nat>)
    requires none == []
    ensures EntriesAt(codec, b, none) == []
  {
  }

  /**
   An archive of any writer is read as the map of its members, the last of a name winning, exactly when none of
   them is named __proto__.
   */
  lemma {:induction false} AnyArchiveIsRead(
      codec: Codec, b: seq<Byte>, members: seq<Member>, places: seq<nat>, locals: seq<nat>, entries: seq<Entry<Byte>>)
    requires IsArchive(b, members, places, locals) && |members| == |entries|
    requires forall k {:trigger entries[k]} :: 0 <= k < |entries| ==>
      entries[k].name == codec.decodeName(members[k].name) && Unpacks(codec, members[k], entries[k].content)
    ensures Found(codec, b) == entries
    ensures Read(codec, b) == Ok(LastWins(entries)) <==> forall i :: 0 <= i < |entries| ==> entries[i].name != PROTO
  {
    hide IsArchive, Unpacks, EntriesAt, Read, LastWins, Cursors;
    PlacesAreTheChain(b, members, places, locals);
    MembersAreFound(codec, b, members, places, locals, entries, |members|);
    SameLengths(b, members, places, locals);
    assert places[..|members|] == places && entries[..|members|] == entries;
    ReadIsExact(codec, b);
  }

  lemma SameLengths(b: seq<Byte>, members: seq<Member>, places: seq<nat>, locals: seq<nat>)
    requires IsArchive(b, members, places, locals)
    ensures |places| == |members|
  {
  }

  /** What the writer makes of an entry: no extra field and no comment. */
  function Plainly(codec: Codec, entry: ZipFixtureEntry): Member {
    var name := codec.encodeName(entry.fileName);
    Member(name, Method(entry), Compressed(codec, entry), [], [], name, [])
  }

  function PlainMembers(codec: Codec, entries: seq<ZipFixtureEntry>): seq<Member> {
    seq(|entries|, i requires 0 <= i < |entries| => Plainly(codec, entries[i]))
  }

  /** Where the local headers of a written archive stand. */
  function LocalsOf(codec: Codec, entries: seq<ZipFixtureEntry>): seq<nat> {
    seq(|entries|, i requires 0 <= i < |entries| => |LocalParts(codec, entries[..i])|)
  }

  lemma WrittenCentralStands(codec: Codec, b: seq<Byte>, at: nat, entry: ZipFixtureEntry, offset: nat)
    requires EntryFits(codec, entry, offset) && StandsAt(b, at, CentralPart(codec, entry, offset))
    ensures CentralStands(b, at, Plainly(codec, entry), offset)
  {
    hide CentralHeader, ReadUInt16LE, ReadUInt32LE;
    var name, size := codec.encodeName(entry.fileName), |Compressed(codec, entry)|;
    var h := CentralHeader(Method(entry), size, |entry.content|, |name|, offset);
    CentralFields(Method(entry), size, |entry.content|, |name|, offset);
    assert h + name == [] + h + name == h + name + [];
    StandsWithin(b, at, [], h, name);
    StandsWithin(b, at, h, name, []);
    ReadInside(b, at, h, 0);
    ReadInside(b, at, h, 10);
    ReadInside(b, at, h, 20);
    ReadInside(b, at, h, 28);
    ReadInside(b, at, h, 30);
    ReadInside(b, at, h, 32);
    ReadInside(b, at, h, 42);
    assert name + [] + [] == name;
  }

  lemma WrittenLocalStands(codec: Codec, b: seq<Byte>, entry: ZipFixtureEntry, offset: nat)
    requires EntryFits(codec, entry, offset) && StandsAt(b, offset, LocalPart(codec, entry))
    ensures LocalStands(b, offset, Plainly(codec, entry))
  {
    hide LocalHeader, ReadUInt16LE, ReadUInt32LE;
    var name, compressed := codec.encodeName(entry.fileName), Compressed(codec, entry);
    var h := LocalHeader(Method(entry), |compressed|, |entry.content|, |name|);
    LocalFields(Method(entry), |compressed|, |entry.content|, |name|);
    assert h + name + compressed == [] + h + (name + compressed) == h + (name + compressed) + [];
    StandsWithin(b, offset, [], h, name + compressed);
    StandsWithin(b, offset, h, name + compressed, []);
    ReadInside(b, offset, h, 0);
    ReadInside(b, offset, h, 26);
    ReadInside(b, offset, h, 28);
    assert name + [] + compressed == name + compressed;
  }

  lemma WrittenMember(codec: Codec, entries: seq<ZipFixtureEntry>, k: nat)
    requires Fits(codec, entries) && k < |entries|
    ensures
      var b, places := Archive(codec, entries), WrittenFrom(codec, entries, 0);
      && CentralStands(b, places[k], Plainly(codec, entries[k]), LocalsOf(codec, entries)[k])
      && LocalStands(b, LocalsOf(codec, entries)[k], Plainly(codec, entries[k]))
  {
    hide Archive, LocalParts, CentralParts, LocalPart, CentralPart, CentralStands, LocalStands, Plainly, EntryFits, StandsAt;
    var offset := |LocalParts(codec, entries[..k])|;
    assert entries[..0 + k] == entries[..k];
    PartsStand(codec, entries, k);
    WrittenCentralStands(codec, Archive(codec, entries), WrittenFrom(codec, entries, 0)[k], entries[k], offset);
    WrittenLocalStands(codec, Archive(codec, entries), entries[k], offset);
  }

  lemma NextWritten(codec: Codec, entries: seq<ZipFixtureEntry>, k: nat)
    requires k + 1 < |entries|
    ensures
      var places, m := WrittenFrom(codec, entries, 0), Plainly(codec, entries[k]);
      places[k + 1] == places[k] + 46 + |m.name| + |m.extra| + |m.comment|
  {
    hide LocalParts, CentralHeader;
    assert entries[..k + 1][..k] == entries[..k] && entries[..0 + k] == entries[..k];
  }

  /** A written archive is one of these. */
  lemma WrittenIsArchive(codec: Codec, entries: seq<ZipFixtureEntry>)
    requires Fits(codec, entries)
    ensures IsArchive(Archive(codec, entries), PlainMembers(codec, entries), WrittenFrom(codec, entries, 0), LocalsOf(codec, entries))
  {
    hide Archive, LocalParts, CentralParts, EndOffset, ReadUInt16LE, ReadUInt32LE, CentralStands, LocalStands, Fits, Plainly;
    ArchiveIsFramed(codec, entries);
    var b, members := Archive(codec, entries), PlainMembers(codec, entries);
    var places, locals := WrittenFrom(codec, entries, 0), LocalsOf(codec, entries);
    forall k | 0 <= k < |members|
      ensures CentralStands(b, places[k], members[k], locals[k]) && LocalStands(b, locals[k], members[k])
    {
      WrittenMember(codec, entries, k);
    }
    forall j, k | 0 <= j < k < |places| && k == j + 1
      ensures places[k] == places[j] + 46 + |members[j].name| + |members[j].extra| + |members[j].comment|
    {
      NextWritten(codec, entries, j);
    }
    if entries != [] {
      assert entries[..0 + 0] == [];
      assert CentralParts(codec, []) == [] by { NothingWritten(codec); }
    }
  }

  lemma NothingWritten(codec: Codec)
    ensures CentralParts(codec, []) == []
  {
  }
}
