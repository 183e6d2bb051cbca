/**
 The ZIP reader and the stored-archive writer, on bytes.

 Formats: PKWARE APPNOTE.TXT section 4.3.7 (local file header), section 4.3.12 (central directory
 header) and section 4.3.16 (end of central directory record).
 */
module ZipArchive {
  import opened JsMembers
  import opened Options

  type Byte = b: int | 0 <= b < 256

  const END_SIGNATURE: int := 101_010_256
  const CENTRAL_SIGNATURE: int := 33_639_248
  const LOCAL_SIGNATURE: int := 67_324_752
  const STORED: int := 0
  const DEFLATE: int := 8

  // ----- Little-endian integers

  function ReadUInt16LE(b: seq<Byte>, at: nat): (v: nat)
    requires at + 2 <= |b|
    ensures v < 0x1_0000
  {
    b[at] as int + 0x100 * (b[at + 1] as int)
  }

  function ReadUInt32LE(b: seq<Byte>, at: nat): (v: nat)
    requires at + 4 <= |b|
    ensures v < 0x1_0000_0000
  {
    b[at] as int + 0x100 * (b[at + 1] as int) + 0x1_0000 * (b[at + 2] as int) + 0x100_0000 * (b[at + 3] as int)
  }

  /** The low 16 bits of v: all of it exactly when v fits. */
  function UInt16LE(v: nat): (b: seq<Byte>)
    ensures |b| == 2 && (ReadUInt16LE(b, 0) == v <==> v < 0x1_0000)
  {
    var b0: int := v % 0x100;
    var b1: int := v / 0x100 % 0x100;
    [b0, b1]
  }

  /** The low 32 bits of v: all of it exactly when v fits. */
  function UInt32LE(v: nat): (b: seq<Byte>)
    ensures |b| == 4 && (ReadUInt32LE(b, 0) == v <==> v < 0x1_0000_0000)
  {
    var b0: int := v % 0x100;
    var v1: int := v / 0x100;
    var b1: int := v1 % 0x100;
    var v2: int := v1 / 0x100;
    var b2: int := v2 % 0x100;
    var b3: int := v2 / 0x100 % 0x100;
    [b0, b1, b2, b3]
  }

  /** The bytes h stand in b at the given offset. */
  ghost predicate StandsAt(b: seq<Byte>, at: nat, h: seq<Byte>) {
    at + |h| <= |b| && b[at..at + |h|] == h
  }

  lemma ReadInside(b: seq<Byte>, at: nat, h: seq<Byte>, k: nat)
    requires StandsAt(b, at, h)
    ensures k + 2 <= |h| ==> ReadUInt16LE(b, at + k) == ReadUInt16LE(h, k)
    ensures k + 4 <= |h| ==> ReadUInt32LE(b, at + k) == ReadUInt32LE(h, k)
  {
    forall j | 0 <= j < |h| ensures b[at + j] == h[j] {
      assert b[at..at + |h|][j] == h[j];
    }
  }

  // ----- The reader

  /** isNumber tells the names that are numbers written canonically. */
  datatype Codec = Codec(
    encodeName: string -> seq<Byte>,
    decodeName: seq<Byte> -> string,
    deflate: seq<Byte> -> seq<Byte>,
    inflate: seq<Byte> -> Option<seq<Byte>>,
    isNumber: string -> bool)

  /** What the reader accepts as the end of central directory record. */
  predicate IsEndRecord(b: seq<Byte>, at: nat)
    requires at + 22 <= |b|
  {
    && ReadUInt32LE(b, at) == END_SIGNATURE
    && at + 22 + ReadUInt16LE(b, at + 20) == |b|
    && ReadUInt32LE(b, at + 16) + ReadUInt32LE(b, at + 12) == at
  }

  /** The last place, at or before from, where a record ends the archive; -1 if there is none. */
  function EndOffset(b: seq<Byte>, from: int): (r: int)
    requires from + 22 <= |b|
    ensures -1 <= r && (r >= 0 ==> r <= from && IsEndRecord(b, r))
    ensures forall at :: 0 <= at && r < at <= from ==> !IsEndRecord(b, at)
    decreases from + 1
  {
    if from < 0 then -1
    else if IsEndRecord(b, from) then from
    else EndOffset(b, from - 1)
  }

  /** The comment length has 16 bits, so nothing is missed by not looking further back. */
  lemma EndIsNear(b: seq<Byte>, from: int)
    requires from + 22 <= |b| && from < |b| - 22 - 65_535
    ensures EndOffset(b, from) == -1
  {
  }

  method FindEndOfCentralDirectoryOffset(b: seq<Byte>) returns (r: int)
    ensures r == EndOffset(b, |b| - 22)
  {
    var minimumOffset := if |b| - 22 - 65_535 > 0 then |b| - 22 - 65_535 else 0;
    var offset := |b| - 22;
    while offset >= minimumOffset
      invariant offset <= |b| - 22 && (offset >= minimumOffset - 1 || offset == |b| - 22)
      invariant EndOffset(b, |b| - 22) == EndOffset(b, offset)
      decreases offset
    {
      if ReadUInt32LE(b, offset) == END_SIGNATURE {
        var commentLength := ReadUInt16LE(b, offset + 20);
        var centralDirectorySize := ReadUInt32LE(b, offset + 12);
        var centralDirectoryOffset := ReadUInt32LE(b, offset + 16);
        if offset + 22 + commentLength == |b| && centralDirectoryOffset + centralDirectorySize == offset {
          return offset;
        }
      }
      offset := offset - 1;
    }
    if offset >= 0 { EndIsNear(b, offset); }
    return -1;
  }

  /** The content an entry's central header at the cursor leads to, if it can be read. */
  function Located(codec: Codec, b: seq<Byte>, cursor: nat): Option<seq<Byte>>
    requires cursor + 46 <= |b|
  {
    var compressionMethod := ReadUInt16LE(b, cursor + 10);
    var compressedSize := ReadUInt32LE(b, cursor + 20);
    var local := ReadUInt32LE(b, cursor + 42);
    if local + 30 > |b| || ReadUInt32LE(b, local) != LOCAL_SIGNATURE then None
    else
      var start := local + 30 + ReadUInt16LE(b, local + 26) + ReadUInt16LE(b, local + 28);
      var end := start + compressedSize;
      if end > |b| then None
      else if compressionMethod == STORED then Some(b[start..end])
      else if compressionMethod == DEFLATE then codec.inflate(b[start..end])
      else None
  }

  function EntryLength(b: seq<Byte>, cursor: nat): (n: nat)
    requires cursor + 46 <= |b|
    ensures n >= 46
  {
    46 + ReadUInt16LE(b, cursor + 28) + ReadUInt16LE(b, cursor + 30) + ReadUInt16LE(b, cursor + 32)
  }

  /** A central header that the reader can take a name from. */
  predicate IsEntry(b: seq<Byte>, cursor: nat) {
    && cursor + 46 <= |b|
    && ReadUInt32LE(b, cursor) == CENTRAL_SIGNATURE
    && cursor + 46 + ReadUInt16LE(b, cursor + 28) <= |b|
  }

  function NameAt(codec: Codec, b: seq<Byte>, cursor: nat): string
    requires IsEntry(b, cursor)
  {
    codec.decodeName(b[cursor + 46..cursor + 46 + ReadUInt16LE(b, cursor + 28)])
  }

  predicate AllEntries(b: seq<Byte>, cursors: seq<nat>) {
    forall k {:trigger cursors[k]} :: 0 <= k < |cursors| ==> IsEntry(b, cursors[k])
  }

  /** Where the central headers stand: n of them, or as many as there are, the first one at the cursor. */
  function Walk(b: seq<Byte>, cursor: nat, n: nat): (cursors: seq<nat>)
    ensures AllEntries(b, cursors)
    decreases n
  {
    if n == 0 || !IsEntry(b, cursor) then [] else [cursor] + Walk(b, cursor + EntryLength(b, cursor), n - 1)
  }

  /** The entries that can be read at those places, in order. */
  function EntriesAt(codec: Codec, b: seq<Byte>, cursors: seq<nat>): seq<Entry<Byte>>
    requires AllEntries(b, cursors)
  {
    if cursors == [] then []
    else
      var last := cursors[|cursors| - 1];
      var located := Located(codec, b, last);
      EntriesAt(codec, b, cursors[..|cursors| - 1])
      + if located.Some? then [Entry(NameAt(codec, b, last), located.value)] else []
  }

  lemma WalkOneMore(codec: Codec, b: seq<Byte>, seen: seq<nat>, cursor: nat)
    requires AllEntries(b, seen)
    requires IsEntry(b, cursor)
    ensures AllEntries(b, seen + [cursor])
    ensures
      var located := Located(codec, b, cursor);
      EntriesAt(codec, b, seen + [cursor]) == EntriesAt(codec, b, seen)
        + if located.Some? then [Entry(NameAt(codec, b, cursor), located.value)] else []
  {
    assert (seen + [cursor])[..|seen|] == seen;
  }

  /** The places of the central headers that the end record leads to. */
  function Cursors(b: seq<Byte>): (cursors: seq<nat>)
    ensures AllEntries(b, cursors)
  {
    var end := EndOffset(b, |b| - 22);
    if end < 0 then [] else Walk(b, ReadUInt32LE(b, end + 16), ReadUInt16LE(b, end + 10))
  }

  function Found(codec: Codec, b: seq<Byte>): seq<Entry<Byte>> {
    EntriesAt(codec, b, Cursors(b))
  }

  /** What an archive gives its reader: an object filled with the entries found. */
  function Read(codec: Codec, b: seq<Byte>): Result<map<string, seq<Byte>>, string> {
    Outcome(Assignments(codec.isNumber, Found(codec, b)))
  }

  /**
   On every byte string the reader throws exactly when an entry found cannot be assigned; otherwise it
   gives exactly the names that survive, and all of them exactly when none is __proto__.
   */
  lemma ReadIsExact(codec: Codec, b: seq<Byte>)
    ensures
      var r, entries := Read(codec, b), Found(codec, b);
      && (r.Err? <==> Throws(entries))
      && (r.Ok? ==> forall name :: name in r.value <==> Survives(codec.isNumber, entries, name))
      && (r.Ok? ==> forall name :: name in r.value ==>
            name in LastWins(entries) && r.value[name] == LastWins(entries)[name])
      && (r == Ok(LastWins(entries)) <==> forall i :: 0 <= i < |entries| ==> entries[i].name != PROTO)
  {
    hide Assignments, Throws, Survives, Found;
    FillingIsExact(codec.isNumber, Found(codec, b));
  }

  /** The last central header of the name whose content can be read stands at the k-th place. */
  ghost predicate IsLastOf(codec: Codec, b: seq<Byte>, cursors: seq<nat>, name: string, content: seq<Byte>, k: nat)
    requires AllEntries(b, cursors)
  {
    && k < |cursors| && NameAt(codec, b, cursors[k]) == name && Located(codec, b, cursors[k]) == Some(content)
    && forall j :: k < j < |cursors| && NameAt(codec, b, cursors[j]) == name ==> Located(codec, b, cursors[j]) == None
  }

  lemma {:induction false} LastIsLocated(codec: Codec, b: seq<Byte>, cursors: seq<nat>, name: string)
    requires AllEntries(b, cursors)
    requires name in LastWins(EntriesAt(codec, b, cursors))
    ensures exists k :: IsLastOf(codec, b, cursors, name, LastWins(EntriesAt(codec, b, cursors))[name], k)
  {
    hide ReadUInt16LE, ReadUInt32LE, NameAt, Located, LastWins, IsLastOf;
    if cursors == [] {
      NoLast(name);
    } else {
      var n := |cursors| - 1;
      var earlier, last := cursors[..n], cursors[n];
      assert cursors == earlier + [last];
      LastOneMore(codec, b, earlier, last, name);
      if Located(codec, b, last).Some? && NameAt(codec, b, last) == name {
      } else {
        LastIsLocated(codec, b, earlier, name);
        var k :| IsLastOf(codec, b, earlier, name, LastWins(EntriesAt(codec, b, earlier))[name], k);
        StaysLast(codec, b, earlier, last, name, LastWins(EntriesAt(codec, b, earlier))[name], k);
      }
    }
  }

  lemma NoLast(name: string)
    ensures name !in LastWins<Byte>([])
  {
  }

  /** One central header more either settles the name or leaves it as it was. */
  lemma LastOneMore(codec: Codec, b: seq<Byte>, earlier: seq<nat>, last: nat, name: string)
    requires AllEntries(b, earlier) && IsEntry(b, last) && AllEntries(b, earlier + [last])
    ensures
      var located := Located(codec, b, last);
      var before, after := LastWins(EntriesAt(codec, b, earlier)), LastWins(EntriesAt(codec, b, earlier + [last]));
      if located.Some? && NameAt(codec, b, last) == name then
        && name in after && after[name] == located.value
        && IsLastOf(codec, b, earlier + [last], name, after[name], |earlier|)
      else
        && (name in after <==> name in before)
        && (name in after ==> after[name] == before[name])
  {
    hide ReadUInt16LE, ReadUInt32LE, NameAt, Located, LastWins, EntriesAt;
    WalkOneMore(codec, b, earlier, last);
    var entries, located := EntriesAt(codec, b, earlier), Located(codec, b, last);
    if located.Some? {
      LastWinsOneMore(entries, Entry(NameAt(codec, b, last), located.value));
    } else {
      assert entries + [] == entries;
    }
  }

  lemma StaysLast(
      codec: Codec, b: seq<Byte>, earlier: seq<nat>, last: nat, name: string, content: seq<Byte>, k: nat)
    requires AllEntries(b, earlier) && IsEntry(b, last) && AllEntries(b, earlier + [last])
    requires IsLastOf(codec, b, earlier, name, content, k)
    requires Located(codec, b, last).None? || NameAt(codec, b, last) != name
    ensures IsLastOf(codec, b, earlier + [last], name, content, k)
  {
    hide ReadUInt16LE, ReadUInt32LE, NameAt, Located;
    var cursors := earlier + [last];
    assert forall j :: 0 <= j < |earlier| ==> cursors[j] == earlier[j];
  }

  /** Where the data stands that a central header's local header leads to. */
  function DataStart(b: seq<Byte>, cursor: nat): nat
    requires cursor + 46 <= |b| && ReadUInt32LE(b, cursor + 42) + 30 <= |b|
  {
    var local := ReadUInt32LE(b, cursor + 42);
    local + 30 + ReadUInt16LE(b, local + 26) + ReadUInt16LE(b, local + 28)
  }

  /**
   On every byte string, each content comes from the last readable central header of its name: it is
   exactly the slice its headers lead to if that is stored, and what the slice inflates to if not.
   */
  lemma ReadComesFromTheBuffer(codec: Codec, b: seq<Byte>, name: string) returns (k: nat)
    requires Read(codec, b).Ok? && name in Read(codec, b).value
    ensures IsLastOf(codec, b, Cursors(b), name, Read(codec, b).value[name], k)
    ensures
      var cursor, content := Cursors(b)[k], Read(codec, b).value[name];
      && ReadUInt32LE(b, cursor + 42) + 30 <= |b|
      && DataStart(b, cursor) + ReadUInt32LE(b, cursor + 20) <= |b|
      && var data := b[DataStart(b, cursor)..DataStart(b, cursor) + ReadUInt32LE(b, cursor + 20)];
        || (ReadUInt16LE(b, cursor + 10) == STORED && content == data)
        || (ReadUInt16LE(b, cursor + 10) == DEFLATE && codec.inflate(data) == Some(content))
  {
    ReadIsExact(codec, b);
    hide ReadUInt16LE, ReadUInt32LE, Located, Cursors, Read, NameAt, LastWins, EntriesAt, Survives, Throws;
    LastIsLocated(codec, b, Cursors(b), name);
    k :| IsLastOf(codec, b, Cursors(b), name, LastWins(Found(codec, b))[name], k);
    LocatedIsData(codec, b, Cursors(b)[k], LastWins(Found(codec, b))[name]);
  }

  lemma LocatedIsData(codec: Codec, b: seq<Byte>, cursor: nat, content: seq<Byte>)
    requires cursor + 46 <= |b| && Located(codec, b, cursor) == Some(content)
    ensures
      && ReadUInt32LE(b, cursor + 42) + 30 <= |b|
      && DataStart(b, cursor) + ReadUInt32LE(b, cursor + 20) <= |b|
      && var data := b[DataStart(b, cursor)..DataStart(b, cursor) + ReadUInt32LE(b, cursor + 20)];
        || (ReadUInt16LE(b, cursor + 10) == STORED && content == data)
        || (ReadUInt16LE(b, cursor + 10) == DEFLATE && codec.inflate(data) == Some(content))
  {
    hide ReadUInt16LE, ReadUInt32LE;
  }

  /** The data of the entry whose central header is at the cursor. */
  method ReadEntry(codec: Codec, b: seq<Byte>, cursor: nat) returns (content: Option<seq<Byte>>)
    requires cursor + 46 <= |b|
    ensures content == Located(codec, b, cursor)
  {
    var compressionMethod := ReadUInt16LE(b, cursor + 10);
    var compressedSize := ReadUInt32LE(b, cursor + 20);
    var localHeaderOffset := ReadUInt32LE(b, cursor + 42);
    if localHeaderOffset + 30 > |b| {
      return None;
    }
    if ReadUInt32LE(b, localHeaderOffset) != LOCAL_SIGNATURE {
      return None;
    }
    var localFileNameLength := ReadUInt16LE(b, localHeaderOffset + 26);
    var localExtraFieldLength := ReadUInt16LE(b, localHeaderOffset + 28);
    var compressedDataStart := localHeaderOffset + 30 + localFileNameLength + localExtraFieldLength;
    var compressedDataEnd := compressedDataStart + compressedSize;
    if compressedDataEnd > |b| {
      return None;
    }
    var compressedData := b[compressedDataStart..compressedDataEnd];
    if compressionMethod == STORED {
      return Some(compressedData);
    }
    if compressionMethod == DEFLATE {
      return codec.inflate(compressedData);
    }
    return None;
  }

  lemma {:induction false} EntriesBegin(codec: Codec, b: seq<Byte>, seen: seq<nat>, rest: seq<nat>)
    requires AllEntries(b, seen)
    requires AllEntries(b, rest)
    ensures EntriesAt(codec, b, seen) <= EntriesAt(codec, b, seen + rest)
  {
    hide IsEntry, NameAt, Located;
    if rest == [] {
      assert seen + rest == seen;
    } else {
      EntriesBegin(codec, b, seen, rest[..|rest| - 1]);
      assert (seen + rest)[..|seen + rest| - 1] == seen + rest[..|rest| - 1];
    }
  }

  lemma WalkStep(b: seq<Byte>, seen: seq<nat>, cursor: nat, n: nat)
    requires n > 0
    ensures !IsEntry(b, cursor) ==> seen + Walk(b, cursor, n) == seen
    ensures IsEntry(b, cursor) ==>
      seen + Walk(b, cursor, n) == (seen + [cursor]) + Walk(b, cursor + EntryLength(b, cursor), n - 1)
  {
  }

  /** Once an assignment has thrown, so has the reading. */
  lemma ThrownAtEnd(codec: Codec, b: seq<Byte>, seen: seq<nat>, rest: seq<nat>)
    requires AllEntries(b, seen)
    requires AllEntries(b, rest)
    requires Assignments(codec.isNumber, EntriesAt(codec, b, seen)).None?
    ensures Assignments(codec.isNumber, EntriesAt(codec, b, seen + rest)).None?
  {
    hide IsEntry, EntriesAt, Assignments;
    EntriesBegin(codec, b, seen, rest);
    var first, all := EntriesAt(codec, b, seen), EntriesAt(codec, b, seen + rest);
    StaysThrown(codec.isNumber, first, all[|first|..]);
    assert all == first + all[|first|..];
  }

  /**
   Every read is in bounds on every byte string, and each completed entry moves the cursor by at least 46.
   Err is the TypeError of an assignment, which nothing here catches.
   */
  method ReadZipArchiveEntries(codec: Codec, b: seq<Byte>) returns (r: Result<map<string, seq<Byte>>, string>)
    ensures r == Read(codec, b)
  {
    hide Located, EndOffset, IsEndRecord, ReadUInt16LE, ReadUInt32LE, Assigned, Assignments, EntriesAt, Walk;
    var end := FindEndOfCentralDirectoryOffset(b);
    var archiveEntries: Members<Byte> := Members(map[], None);
    NothingFound(codec, b);
    if end < 0 {
      return Ok(archiveEntries.own);
    }
    var centralDirectoryEntries := ReadUInt16LE(b, end + 10);
    var cursor := ReadUInt32LE(b, end + 16);
    ghost var start := cursor;
    ghost var seen: seq<nat> := [];
    assert Cursors(b) == [] + Walk(b, cursor, centralDirectoryEntries);
    hide Cursors;
    for index := 0 to centralDirectoryEntries
      invariant cursor >= start + 46 * index
      invariant AllEntries(b, seen)
      invariant Cursors(b) == seen + Walk(b, cursor, centralDirectoryEntries - index)
      invariant Assignments(codec.isNumber, EntriesAt(codec, b, seen)) == Some(archiveEntries)
    {
      WalkStep(b, seen, cursor, centralDirectoryEntries - index);
      if cursor + 46 > |b| {
        return Ok(archiveEntries.own);
      }
      if ReadUInt32LE(b, cursor) != CENTRAL_SIGNATURE {
        return Ok(archiveEntries.own);
      }
      var fileNameLength := ReadUInt16LE(b, cursor + 28);
      var extraFieldLength := ReadUInt16LE(b, cursor + 30);
      var fileCommentLength := ReadUInt16LE(b, cursor + 32);
      if cursor + 46 + fileNameLength > |b| {
        return Ok(archiveEntries.own);
      }
      var fileName := codec.decodeName(b[cursor + 46..cursor + 46 + fileNameLength]);
      var entryContent := ReadEntry(codec, b, cursor);
      WalkOneMore(codec, b, seen, cursor);
      seen := seen + [cursor];
      cursor := cursor + 46 + fileNameLength + extraFieldLength + fileCommentLength;
      assert EntriesAt(codec, b, seen[..|seen| - 1]) + [] == EntriesAt(codec, b, seen[..|seen| - 1]);
      if entryContent.Some? {
        AssignedOneMore(codec.isNumber, EntriesAt(codec, b, seen), archiveEntries);
        var filled := Assigned(codec.isNumber, archiveEntries, Entry(fileName, entryContent.value));
        if filled.None? {
          ThrownAtEnd(codec, b, seen, Walk(b, cursor, centralDirectoryEntries - index - 1));
          return Err("TypeError");
        }
        archiveEntries := filled.value;
      }
    }
    WalkEnds(b, seen, cursor);
    return Ok(archiveEntries.own);
  }

  lemma WalkEnds(b: seq<Byte>, seen: seq<nat>, cursor: nat)
    ensures seen + Walk(b, cursor, 0) == seen
  {
  }

  lemma NothingFound(codec: Codec, b: seq<Byte>)
    ensures Assignments(codec.isNumber, EntriesAt(codec, b, [])) == Some(Members(map[], None))
  {
  }

  lemma AssignedOneMore(isNumber: string -> bool, entries: seq<Entry<Byte>>, members: Members<Byte>)
    requires entries != [] && Assignments(isNumber, entries[..|entries| - 1]) == Some(members)
    ensures Assignments(isNumber, entries) == Assigned(isNumber, members, entries[|entries| - 1])
  {
  }

  // ----- The writer

  datatype ZipFixtureEntry = ZipFixtureEntry(fileName: string, content: seq<Byte>, deflated: bool)

  function Compressed(codec: Codec, entry: ZipFixtureEntry): seq<Byte> {
    if entry.deflated then codec.deflate(entry.content) else entry.content
  }

  function Method(entry: ZipFixtureEntry): nat {
    if entry.deflated then DEFLATE else STORED
  }

  /** The first part of the local header, up to the checksum. */
  function LocalHeaderStart(compressionMethod: nat): (h: seq<Byte>)
    ensures |h| == 18
  {
    UInt32LE(LOCAL_SIGNATURE) + UInt16LE(20) + UInt16LE(0) + UInt16LE(compressionMethod) + UInt16LE(0)
    + UInt16LE(0) + UInt32LE(0)
  }

  /** Section 4.3.7 of APPNOTE.TXT. */
  function LocalHeader(compressionMethod: nat, compressedSize: nat, size: nat, nameLength: nat): (h: seq<Byte>)
    ensures |h| == 30
  {
    LocalHeaderStart(compressionMethod) + UInt32LE(compressedSize) + UInt32LE(size) + UInt16LE(nameLength)
    + UInt16LE(0)
  }

  /** The first half of the central header, up to the compressed size. */
  function CentralHeaderStart(compressionMethod: nat, compressedSize: nat): (h: seq<Byte>)
    ensures |h| == 24
  {
    UInt32LE(CENTRAL_SIGNATURE) + UInt16LE(20) + UInt16LE(20) + UInt16LE(0) + UInt16LE(compressionMethod)
    + UInt16LE(0) + UInt16LE(0) + UInt32LE(0) + UInt32LE(compressedSize)
  }

  /** Section 4.3.12 of APPNOTE.TXT. */
  function CentralHeader(compressionMethod: nat, compressedSize: nat, size: nat, nameLength: nat, offset: nat):
      (h: seq<Byte>)
    ensures |h| == 46
  {
    CentralHeaderStart(compressionMethod, compressedSize) + UInt32LE(size) + UInt16LE(nameLength) + UInt16LE(0)
    + UInt16LE(0) + UInt16LE(0) + UInt16LE(0) + UInt32LE(0) + UInt32LE(offset)
  }

  /** Section 4.3.16 of APPNOTE.TXT. */
  function EndRecord(entries: nat, directorySize: nat, directoryOffset: nat): (h: seq<Byte>)
    ensures |h| == 22
  {
    UInt32LE(END_SIGNATURE) + UInt16LE(0) + UInt16LE(0) + UInt16LE(entries) + UInt16LE(entries)
    + UInt32LE(directorySize) + UInt32LE(directoryOffset) + UInt16LE(0)
  }

  function LocalPart(codec: Codec, entry: ZipFixtureEntry): seq<Byte> {
    var name := codec.encodeName(entry.fileName);
    var compressed := Compressed(codec, entry);
    LocalHeader(Method(entry), |compressed|, |entry.content|, |name|) + name + compressed
  }

  function CentralPart(codec: Codec, entry: ZipFixtureEntry, offset: nat): seq<Byte> {
    var name := codec.encodeName(entry.fileName);
    CentralHeader(Method(entry), |Compressed(codec, entry)|, |entry.content|, |name|, offset) + name
  }

  function LocalParts(codec: Codec, entries: seq<ZipFixtureEntry>): seq<Byte> {
    if entries == [] then []
    else LocalParts(codec, entries[..|entries| - 1]) + LocalPart(codec, entries[|entries| - 1])
  }

  function CentralParts(codec: Codec, entries: seq<ZipFixtureEntry>): seq<Byte> {
    if entries == [] then []
    else
      var earlier := entries[..|entries| - 1];
      CentralParts(codec, earlier) + CentralPart(codec, entries[|entries| - 1], |LocalParts(codec, earlier)|)
  }

  function Archive(codec: Codec, entries: seq<ZipFixtureEntry>): seq<Byte> {
    var localFiles := LocalParts(codec, entries);
    var centralDirectory := CentralParts(codec, entries);
    localFiles + centralDirectory + EndRecord(|entries|, |centralDirectory|, |localFiles|)
  }

  /** Every value the entry's two headers record fits its field. */
  predicate EntryFits(codec: Codec, entry: ZipFixtureEntry, offset: nat) {
    && |codec.encodeName(entry.fileName)| < 0x1_0000
    && |Compressed(codec, entry)| < 0x1_0000_0000
    && |entry.content| < 0x1_0000_0000
    && offset < 0x1_0000_0000
  }

  predicate EntriesFit(codec: Codec, entries: seq<ZipFixtureEntry>) {
    forall i {:trigger entries[i]} :: 0 <= i < |entries| ==>
      EntryFits(codec, entries[i], |LocalParts(codec, entries[..i])|)
  }

  predicate Fits(codec: Codec, entries: seq<ZipFixtureEntry>) {
    && EntriesFit(codec, entries)
    && |entries| < 0x1_0000
    && |CentralParts(codec, entries)| < 0x1_0000_0000
    && |LocalParts(codec, entries)| < 0x1_0000_0000
  }

  /** Buffer.writeUInt16LE: a value that does not fit is a RangeError. */
  method WriteUInt16LE(buffer: array<Byte>, value: nat, at: nat) returns (ok: bool)
    requires at + 2 <= buffer.Length
    modifies buffer
    ensures ok <==> value < 0x1_0000
    ensures ok ==> buffer[..at + 2] == old(buffer[..at]) + UInt16LE(value)
  {
    if value >= 0x1_0000 {
      return false;
    }
    var bytes := UInt16LE(value);
    buffer[at], buffer[at + 1] := bytes[0], bytes[1];
    return true;
  }

  method WriteUInt32LE(buffer: array<Byte>, value: nat, at: nat) returns (ok: bool)
    requires at + 4 <= buffer.Length
    modifies buffer
    ensures ok <==> value < 0x1_0000_0000
    ensures ok ==> buffer[..at + 4] == old(buffer[..at]) + UInt32LE(value)
  {
    if value >= 0x1_0000_0000 {
      return false;
    }
    var bytes := UInt32LE(value);
    buffer[at], buffer[at + 1], buffer[at + 2], buffer[at + 3] := bytes[0], bytes[1], bytes[2], bytes[3];
    return true;
  }

  method WriteLocalHeaderStart(buffer: array<Byte>, compressionMethod: nat)
    requires compressionMethod <= DEFLATE && buffer.Length == 30
    modifies buffer
    ensures buffer[..18] == LocalHeaderStart(compressionMethod)
  {
    hide UInt16LE, UInt32LE;
    var ok := WriteUInt32LE(buffer, LOCAL_SIGNATURE, 0);
    ok := WriteUInt16LE(buffer, 20, 4);
    ok := WriteUInt16LE(buffer, 0, 6);
    ok := WriteUInt16LE(buffer, compressionMethod, 8);
    ok := WriteUInt16LE(buffer, 0, 10);
    ok := WriteUInt16LE(buffer, 0, 12);
    ok := WriteUInt32LE(buffer, 0, 14);
  }

  method WriteLocalHeader(compressionMethod: nat, compressedSize: nat, size: nat, nameLength: nat)
      returns (ok: bool, header: seq<Byte>)
    requires compressionMethod <= DEFLATE
    ensures ok <==> compressedSize < 0x1_0000_0000 && size < 0x1_0000_0000 && nameLength < 0x1_0000
    ensures ok ==> header == LocalHeader(compressionMethod, compressedSize, size, nameLength)
  {
    hide UInt16LE, UInt32LE, LocalHeaderStart;
    var localFileHeader := new Byte[30](_ => 0);
    header := [];
    WriteLocalHeaderStart(localFileHeader, compressionMethod);
    ok := WriteUInt32LE(localFileHeader, compressedSize, 18);
    if !ok { return; }
    ok := WriteUInt32LE(localFileHeader, size, 22);
    if !ok { return; }
    ok := WriteUInt16LE(localFileHeader, nameLength, 26);
    if !ok { return; }
    ok := WriteUInt16LE(localFileHeader, 0, 28);
    header := localFileHeader[..30];
  }

  method WriteCentralHeaderStart(buffer: array<Byte>, compressionMethod: nat, compressedSize: nat)
      returns (ok: bool)
    requires compressionMethod <= DEFLATE && buffer.Length == 46
    modifies buffer
    ensures ok <==> compressedSize < 0x1_0000_0000
    ensures ok ==> buffer[..24] == CentralHeaderStart(compressionMethod, compressedSize)
  {
    hide UInt16LE, UInt32LE;
    ok := WriteUInt32LE(buffer, CENTRAL_SIGNATURE, 0);
    ok := WriteUInt16LE(buffer, 20, 4);
    ok := WriteUInt16LE(buffer, 20, 6);
    ok := WriteUInt16LE(buffer, 0, 8);
    ok := WriteUInt16LE(buffer, compressionMethod, 10);
    ok := WriteUInt16LE(buffer, 0, 12);
    ok := WriteUInt16LE(buffer, 0, 14);
    ok := WriteUInt32LE(buffer, 0, 16);
    ok := WriteUInt32LE(buffer, compressedSize, 20);
  }

  method WriteCentralHeader(compressionMethod: nat, compressedSize: nat, size: nat, nameLength: nat, offset: nat)
      returns (ok: bool, header: seq<Byte>)
    requires compressionMethod <= DEFLATE
    ensures ok <==>
      compressedSize < 0x1_0000_0000 && size < 0x1_0000_0000 && nameLength < 0x1_0000 && offset < 0x1_0000_0000
    ensures ok ==> header == CentralHeader(compressionMethod, compressedSize, size, nameLength, offset)
  {
    hide UInt16LE, UInt32LE, CentralHeaderStart;
    var centralDirectoryHeader := new Byte[46](_ => 0);
    header := [];
    ok := WriteCentralHeaderStart(centralDirectoryHeader, compressionMethod, compressedSize);
    if !ok { return; }
    ok := WriteUInt32LE(centralDirectoryHeader, size, 24);
    if !ok { return; }
    ok := WriteUInt16LE(centralDirectoryHeader, nameLength, 28);
    if !ok { return; }
    ok := WriteUInt16LE(centralDirectoryHeader, 0, 30);
    ok := WriteUInt16LE(centralDirectoryHeader, 0, 32);
    ok := WriteUInt16LE(centralDirectoryHeader, 0, 34);
    ok := WriteUInt16LE(centralDirectoryHeader, 0, 36);
    ok := WriteUInt32LE(centralDirectoryHeader, 0, 38);
    ok := WriteUInt32LE(centralDirectoryHeader, offset, 42);
    header := centralDirectoryHeader[..46];
  }

  method WriteEndRecord(entries: nat, directorySize: nat, directoryOffset: nat) returns (ok: bool, header: seq<Byte>)
    ensures ok <==> entries < 0x1_0000 && directorySize < 0x1_0000_0000 && directoryOffset < 0x1_0000_0000
    ensures ok ==> header == EndRecord(entries, directorySize, directoryOffset)
  {
    hide UInt16LE, UInt32LE;
    var endRecord := new Byte[22](_ => 0);
    header := [];
    ok := WriteUInt32LE(endRecord, END_SIGNATURE, 0);
    ok := WriteUInt16LE(endRecord, 0, 4);
    ok := WriteUInt16LE(endRecord, 0, 6);
    ok := WriteUInt16LE(endRecord, entries, 8);
    if !ok { return; }
    ok := WriteUInt16LE(endRecord, entries, 10);
    ok := WriteUInt32LE(endRecord, directorySize, 12);
    if !ok { return; }
    ok := WriteUInt32LE(endRecord, directoryOffset, 16);
    if !ok { return; }
    ok := WriteUInt16LE(endRecord, 0, 20);
    header := endRecord[..22];
  }

  /** What one entry adds to the two halves of the archive. */
  method WriteEntry(codec: Codec, entry: ZipFixtureEntry, offset: nat)
      returns (ok: bool, localFile: seq<Byte>, central: seq<Byte>)
    ensures ok <==> EntryFits(codec, entry, offset)
    ensures ok ==> localFile == LocalPart(codec, entry) && central == CentralPart(codec, entry, offset)
  {
    hide LocalHeader, CentralHeader;
    var fileName := codec.encodeName(entry.fileName);
    var compressedContent := if entry.deflated then codec.deflate(entry.content) else entry.content;
    var compressionMethod := if entry.deflated then DEFLATE else STORED;
    localFile, central := [], [];
    var localFileHeader, centralDirectoryHeader;
    ok, localFileHeader := WriteLocalHeader(compressionMethod, |compressedContent|, |entry.content|, |fileName|);
    if !ok { return; }
    ok, centralDirectoryHeader :=
      WriteCentralHeader(compressionMethod, |compressedContent|, |entry.content|, |fileName|, offset);
    if !ok { return; }
    localFile := localFileHeader + fileName + compressedContent;
    central := centralDirectoryHeader + fileName;
  }

  /** The archive, exactly when everything its headers record fits. */
  method CreateStoredZipArchive(codec: Codec, entries: seq<ZipFixtureEntry>) returns (r: Result<seq<Byte>, string>)
    ensures r.Ok? <==> Fits(codec, entries)
    ensures r.Ok? ==> r.value == Archive(codec, entries)
  {
    hide EntryFits, LocalPart, CentralPart, EndRecord;
    var localFileParts: seq<Byte>, centralDirectoryParts: seq<Byte> := [], [];
    var localFileOffset := 0;
    for i := 0 to |entries|
      invariant localFileParts == LocalParts(codec, entries[..i]) && localFileOffset == |localFileParts|
      invariant centralDirectoryParts == CentralParts(codec, entries[..i])
      invariant forall k {:trigger entries[k]} :: 0 <= k < i ==>
        EntryFits(codec, entries[k], |LocalParts(codec, entries[..k])|)
    {
      var ok, localFile, central := WriteEntry(codec, entries[i], localFileOffset);
      if !ok {
        return Err("RangeError");
      }
      assert entries[..i + 1][..i] == entries[..i];
      localFileParts := localFileParts + localFile;
      centralDirectoryParts := centralDirectoryParts + central;
      localFileOffset := localFileOffset + |localFile|;
    }
    assert entries[..|entries|] == entries;
    var ok, endOfCentralDirectoryRecord := WriteEndRecord(|entries|, |centralDirectoryParts|, localFileOffset);
    if !ok {
      return Err("RangeError");
    }
    return Ok(localFileParts + centralDirectoryParts + endOfCentralDirectoryRecord);
  }

  // ----- What was written is what is read

  /** The two conversions give back what this entry put in. */
  predicate Restores(codec: Codec, entry: ZipFixtureEntry) {
    && codec.decodeName(codec.encodeName(entry.fileName)) == entry.fileName
    && (entry.deflated ==> codec.inflate(codec.deflate(entry.content)) == Some(entry.content))
  }

  lemma Field16(h: seq<Byte>, before: seq<Byte>, v: nat)
    requires |before| + 2 <= |h| && h[..|before| + 2] == before + UInt16LE(v)
    ensures v < 0x1_0000 ==> ReadUInt16LE(h, |before|) == v
  {
    assert forall j :: 0 <= j < 2 ==> h[|before| + j] == h[..|before| + 2][|before| + j] == UInt16LE(v)[j];
  }

  lemma Field32(h: seq<Byte>, before: seq<Byte>, v: nat)
    requires |before| + 4 <= |h| && h[..|before| + 4] == before + UInt32LE(v)
    ensures v < 0x1_0000_0000 ==> ReadUInt32LE(h, |before|) == v
  {
    assert forall j :: 0 <= j < 4 ==> h[|before| + j] == h[..|before| + 4][|before| + j] == UInt32LE(v)[j];
  }

  lemma LocalStartFields(compressionMethod: nat)
    requires compressionMethod < 0x1_0000
    ensures
      var h := LocalHeaderStart(compressionMethod);
      && ReadUInt32LE(h, 0) == LOCAL_SIGNATURE
      && ReadUInt16LE(h, 4) == 20 && ReadUInt16LE(h, 6) == 0
      && ReadUInt16LE(h, 8) == compressionMethod
      && ReadUInt16LE(h, 10) == ReadUInt16LE(h, 12) == 0 && ReadUInt32LE(h, 14) == 0
  {
    hide UInt16LE, UInt32LE, ReadUInt16LE, ReadUInt32LE;
    var h := LocalHeaderStart(compressionMethod);
    Field32(h, [], LOCAL_SIGNATURE);
    Field16(h, h[..4], 20);
    Field16(h, h[..6], 0);
    Field16(h, h[..8], compressionMethod);
    Field16(h, h[..10], 0);
    Field16(h, h[..12], 0);
    Field32(h, h[..14], 0);
  }

  /** Every field of a local header, where section 4.3.7 of APPNOTE.TXT puts it. */
  lemma LocalFields(compressionMethod: nat, compressedSize: nat, size: nat, nameLength: nat)
    requires compressionMethod < 0x1_0000 && compressedSize < 0x1_0000_0000 && size < 0x1_0000_0000
    requires nameLength < 0x1_0000
    ensures
      var h := LocalHeader(compressionMethod, compressedSize, size, nameLength);
      && ReadUInt32LE(h, 0) == LOCAL_SIGNATURE
      && ReadUInt16LE(h, 4) == 20 && ReadUInt16LE(h, 6) == 0
      && ReadUInt16LE(h, 8) == compressionMethod
      && ReadUInt16LE(h, 10) == ReadUInt16LE(h, 12) == 0 && ReadUInt32LE(h, 14) == 0
      && ReadUInt32LE(h, 18) == compressedSize
      && ReadUInt32LE(h, 22) == size
      && ReadUInt16LE(h, 26) == nameLength
      && ReadUInt16LE(h, 28) == 0
  {
    hide UInt16LE, UInt32LE, ReadUInt16LE, ReadUInt32LE, LocalHeaderStart;
    var h, start := LocalHeader(compressionMethod, compressedSize, size, nameLength), LocalHeaderStart(compressionMethod);
    LocalStartFields(compressionMethod);
    assert StandsAt(h, 0, start);
    ReadInside(h, 0, start, 0);
    ReadInside(h, 0, start, 4);
    ReadInside(h, 0, start, 6);
    ReadInside(h, 0, start, 8);
    ReadInside(h, 0, start, 10);
    ReadInside(h, 0, start, 12);
    ReadInside(h, 0, start, 14);
    Field32(h, h[..18], compressedSize);
    Field32(h, h[..22], size);
    Field16(h, h[..26], nameLength);
    Field16(h, h[..28], 0);
  }

  lemma CentralStartFields(compressionMethod: nat, compressedSize: nat)
    requires compressionMethod < 0x1_0000 && compressedSize < 0x1_0000_0000
    ensures
      var h := CentralHeaderStart(compressionMethod, compressedSize);
      && ReadUInt32LE(h, 0) == CENTRAL_SIGNATURE
      && ReadUInt16LE(h, 4) == ReadUInt16LE(h, 6) == 20 && ReadUInt16LE(h, 8) == 0
      && ReadUInt16LE(h, 10) == compressionMethod
      && ReadUInt16LE(h, 12) == ReadUInt16LE(h, 14) == 0 && ReadUInt32LE(h, 16) == 0
      && ReadUInt32LE(h, 20) == compressedSize
  {
    hide UInt16LE, UInt32LE, ReadUInt16LE, ReadUInt32LE;
    var h := CentralHeaderStart(compressionMethod, compressedSize);
    Field32(h, [], CENTRAL_SIGNATURE);
    Field16(h, h[..4], 20);
    Field16(h, h[..6], 20);
    Field16(h, h[..8], 0);
    Field16(h, h[..10], compressionMethod);
    Field16(h, h[..12], 0);
    Field16(h, h[..14], 0);
    Field32(h, h[..16], 0);
    Field32(h, h[..20], compressedSize);
  }

  /** Every field of a central header, where section 4.3.12 of APPNOTE.TXT puts it. */
  lemma CentralFields(compressionMethod: nat, compressedSize: nat, size: nat, nameLength: nat, offset: nat)
    requires compressionMethod < 0x1_0000 && compressedSize < 0x1_0000_0000 && size < 0x1_0000_0000
    requires nameLength < 0x1_0000 && offset < 0x1_0000_0000
    ensures
      var h := CentralHeader(compressionMethod, compressedSize, size, nameLength, offset);
      && ReadUInt32LE(h, 0) == CENTRAL_SIGNATURE
      && ReadUInt16LE(h, 4) == ReadUInt16LE(h, 6) == 20 && ReadUInt16LE(h, 8) == 0
      && ReadUInt16LE(h, 10) == compressionMethod
      && ReadUInt16LE(h, 12) == ReadUInt16LE(h, 14) == 0 && ReadUInt32LE(h, 16) == 0
      && ReadUInt32LE(h, 20) == compressedSize
      && ReadUInt32LE(h, 24) == size
      && ReadUInt16LE(h, 28) == nameLength
      && ReadUInt16LE(h, 30) == ReadUInt16LE(h, 32) == ReadUInt16LE(h, 34) == ReadUInt16LE(h, 36) == 0
      && ReadUInt32LE(h, 38) == 0
      && ReadUInt32LE(h, 42) == offset
  {
    hide UInt16LE, UInt32LE, ReadUInt16LE, ReadUInt32LE, CentralHeaderStart;
    var h := CentralHeader(compressionMethod, compressedSize, size, nameLength, offset);
    CentralStartStands(h, compressionMethod, compressedSize);
    Field32(h, h[..24], size);
    Field16(h, h[..28], nameLength);
    Field16(h, h[..30], 0);
    Field16(h, h[..32], 0);
    Field16(h, h[..34], 0);
    Field16(h, h[..36], 0);
    Field32(h, h[..38], 0);
    Field32(h, h[..42], offset);
  }

  lemma CentralStartStands(h: seq<Byte>, compressionMethod: nat, compressedSize: nat)
    requires compressionMethod < 0x1_0000 && compressedSize < 0x1_0000_0000
    requires CentralHeaderStart(compressionMethod, compressedSize) <= h
    ensures ReadUInt32LE(h, 0) == CENTRAL_SIGNATURE
    ensures ReadUInt16LE(h, 4) == ReadUInt16LE(h, 6) == 20 && ReadUInt16LE(h, 8) == 0
    ensures ReadUInt16LE(h, 10) == compressionMethod
    ensures ReadUInt16LE(h, 12) == ReadUInt16LE(h, 14) == 0 && ReadUInt32LE(h, 16) == 0
    ensures ReadUInt32LE(h, 20) == compressedSize
  {
    hide UInt16LE, UInt32LE, ReadUInt16LE, ReadUInt32LE, CentralHeaderStart;
    var start := CentralHeaderStart(compressionMethod, compressedSize);
    CentralStartFields(compressionMethod, compressedSize);
    assert StandsAt(h, 0, start);
    ReadInside(h, 0, start, 0);
    ReadInside(h, 0, start, 4);
    ReadInside(h, 0, start, 6);
    ReadInside(h, 0, start, 8);
    ReadInside(h, 0, start, 10);
    ReadInside(h, 0, start, 12);
    ReadInside(h, 0, start, 14);
    ReadInside(h, 0, start, 16);
    ReadInside(h, 0, start, 20);
  }

  /** Every field of an end record, where section 4.3.16 of APPNOTE.TXT puts it. */
  lemma EndFields(entries: nat, directorySize: nat, directoryOffset: nat)
    requires entries < 0x1_0000 && directorySize < 0x1_0000_0000 && directoryOffset < 0x1_0000_0000
    ensures
      var h := EndRecord(entries, directorySize, directoryOffset);
      && ReadUInt32LE(h, 0) == END_SIGNATURE
      && ReadUInt16LE(h, 4) == ReadUInt16LE(h, 6) == 0
      && ReadUInt16LE(h, 8) == ReadUInt16LE(h, 10) == entries
      && ReadUInt32LE(h, 12) == directorySize
      && ReadUInt32LE(h, 16) == directoryOffset
      && ReadUInt16LE(h, 20) == 0
  {
    hide UInt16LE, UInt32LE, ReadUInt16LE, ReadUInt32LE;
    var h := EndRecord(entries, directorySize, directoryOffset);
    Field32(h, [], END_SIGNATURE);
    Field16(h, h[..4], 0);
    Field16(h, h[..6], 0);
    Field16(h, h[..8], entries);
    Field16(h, h[..10], entries);
    Field32(h, h[..12], directorySize);
    Field32(h, h[..16], directoryOffset);
    Field16(h, h[..20], 0);
  }

  /** The reader finds the record the writer ends an archive with. */
  lemma EndIsFound(b: seq<Byte>, entries: nat, directorySize: nat, directoryOffset: nat)
    requires entries < 0x1_0000 && directorySize < 0x1_0000_0000 && directoryOffset < 0x1_0000_0000
    requires |b| == directoryOffset + directorySize + 22
    requires StandsAt(b, |b| - 22, EndRecord(entries, directorySize, directoryOffset))
    ensures EndOffset(b, |b| - 22) == |b| - 22
    ensures ReadUInt16LE(b, |b| - 22 + 10) == entries
    ensures ReadUInt32LE(b, |b| - 22 + 16) == directoryOffset
  {
    hide EndRecord, ReadUInt16LE, ReadUInt32LE;
    var h := EndRecord(entries, directorySize, directoryOffset);
    EndFields(entries, directorySize, directoryOffset);
    ReadInside(b, |b| - 22, h, 0);
    ReadInside(b, |b| - 22, h, 10);
    ReadInside(b, |b| - 22, h, 12);
    ReadInside(b, |b| - 22, h, 16);
    ReadInside(b, |b| - 22, h, 20);
  }

  /** A part of what stands in b stands in b. */
  lemma StandsWithin(b: seq<Byte>, at: nat, before: seq<Byte>, h: seq<Byte>, after: seq<Byte>)
    requires StandsAt(b, at, before + h + after)
    ensures StandsAt(b, at + |before|, h)
  {
    var whole := before + h + after;
    var from := at + |before|;
    assert |b[from..from + |h|]| == |h|;
    forall k | 0 <= k < |h| ensures b[from..from + |h|][k] == h[k] {
      assert b[from + k] == b[at..at + |whole|][|before| + k] == whole[|before| + k] == h[k];
    }
  }

  /** The central part, standing at the cursor, is read as an entry with this name. */
  lemma NameIsRead(codec: Codec, b: seq<Byte>, cursor: nat, entry: ZipFixtureEntry, offset: nat)
    requires EntryFits(codec, entry, offset) && Restores(codec, entry)
    requires StandsAt(b, cursor, CentralPart(codec, entry, offset))
    ensures IsEntry(b, cursor) && NameAt(codec, b, cursor) == entry.fileName
    ensures EntryLength(b, cursor) == |CentralPart(codec, entry, offset)|
    ensures ReadUInt16LE(b, cursor + 10) == Method(entry)
    ensures ReadUInt32LE(b, cursor + 20) == |Compressed(codec, entry)|
    ensures ReadUInt32LE(b, cursor + 42) == offset
  {
    hide CentralHeader, ReadUInt16LE, ReadUInt32LE;
    var name, size := codec.encodeName(entry.fileName), |Compressed(codec, entry)|;
    var h := CentralHeader(Method(entry), size, |entry.content|, |name|, offset);
    CentralFields(Method(entry), size, |entry.content|, |name|, offset);
    assert h + name == [] + h + name == h + name + [];
    StandsWithin(b, cursor, [], h, name);
    StandsWithin(b, cursor, h, name, []);
    ReadInside(b, cursor, h, 0);
    ReadInside(b, cursor, h, 10);
    ReadInside(b, cursor, h, 20);
    ReadInside(b, cursor, h, 28);
    ReadInside(b, cursor, h, 30);
    ReadInside(b, cursor, h, 32);
    ReadInside(b, cursor, h, 42);
  }

  /** The local part, standing at the offset, leads to the compressed content. */
  lemma ContentIsRead(codec: Codec, b: seq<Byte>, entry: ZipFixtureEntry, offset: nat)
    requires EntryFits(codec, entry, offset)
    requires StandsAt(b, offset, LocalPart(codec, entry))
    ensures offset + 30 <= |b| && ReadUInt32LE(b, offset) == LOCAL_SIGNATURE
    ensures
      var start := offset + 30 + ReadUInt16LE(b, offset + 26) + ReadUInt16LE(b, offset + 28);
      StandsAt(b, start, Compressed(codec, entry))
  {
    hide LocalHeader, ReadUInt16LE, ReadUInt32LE;
    var name, compressed := codec.encodeName(entry.fileName), Compressed(codec, entry);
    var h := LocalHeader(Method(entry), |compressed|, |entry.content|, |name|);
    LocalFields(Method(entry), |compressed|, |entry.content|, |name|);
    assert h + name + compressed == [] + h + (name + compressed);
    assert h + name + compressed == (h + name) + compressed + [];
    StandsWithin(b, offset, [], h, name + compressed);
    StandsWithin(b, offset, h + name, compressed, []);
    ReadInside(b, offset, h, 0);
    ReadInside(b, offset, h, 26);
    ReadInside(b, offset, h, 28);
  }

  /** One central part and one local part, standing where they belong, are read as the entry. */
  lemma EntryIsRead(codec: Codec, b: seq<Byte>, cursor: nat, entry: ZipFixtureEntry, offset: nat)
    requires EntryFits(codec, entry, offset) && Restores(codec, entry)
    requires StandsAt(b, cursor, CentralPart(codec, entry, offset))
    requires StandsAt(b, offset, LocalPart(codec, entry))
    ensures IsEntry(b, cursor) && NameAt(codec, b, cursor) == entry.fileName
    ensures EntryLength(b, cursor) == |CentralPart(codec, entry, offset)|
    ensures Located(codec, b, cursor) == Some(entry.content)
  {
    hide CentralPart, LocalPart, NameAt, EntryLength, ReadUInt16LE, ReadUInt32LE;
    NameIsRead(codec, b, cursor, entry, offset);
    ContentIsRead(codec, b, entry, offset);
  }

  /** The earlier entries' parts come first, and then the entry's own. */
  lemma {:induction false} PartsFollowParts(codec: Codec, entries: seq<ZipFixtureEntry>, k: nat)
    requires k < |entries|
    ensures
      var offset := |LocalParts(codec, entries[..k])|;
      && LocalParts(codec, entries[..k]) + LocalPart(codec, entries[k]) <= LocalParts(codec, entries)
      && CentralParts(codec, entries[..k]) + CentralPart(codec, entries[k], offset) <= CentralParts(codec, entries)
  {
    hide LocalPart, CentralPart;
    if k < |entries| - 1 {
      var earlier := entries[..|entries| - 1];
      assert entries[..k] == earlier[..k];
      PartsFollowParts(codec, earlier, k);
    }
  }

  lemma PrefixStands(before: seq<Byte>, whole: seq<Byte>, after: seq<Byte>, start: seq<Byte>, h: seq<Byte>)
    requires start + h <= whole
    ensures StandsAt(before + whole + after, |before| + |start|, h)
  {
    var b := before + whole + after;
    assert before + start + h == b[..|before| + |start| + |h|];
    StandsWithin(b, 0, before + start, h, []);
  }

  /** Where the k-th entry's two parts stand. */
  lemma PartsStand(codec: Codec, entries: seq<ZipFixtureEntry>, k: nat)
    requires k < |entries|
    ensures
      var b := Archive(codec, entries);
      var offset := |LocalParts(codec, entries[..k])|;
      && StandsAt(b, offset, LocalPart(codec, entries[k]))
      && StandsAt(b, |LocalParts(codec, entries)| + |CentralParts(codec, entries[..k])|,
                  CentralPart(codec, entries[k], offset))
  {
    hide LocalPart, CentralPart, EndRecord, LocalParts, CentralParts, StandsAt;
    PartsFollowParts(codec, entries, k);
    var localFiles, directory := LocalParts(codec, entries), CentralParts(codec, entries);
    var end := EndRecord(|entries|, |directory|, |localFiles|);
    PrefixStands([], localFiles, directory + end, LocalParts(codec, entries[..k]), LocalPart(codec, entries[k]));
    PrefixStands(localFiles, directory, end, CentralParts(codec, entries[..k]),
                 CentralPart(codec, entries[k], |LocalParts(codec, entries[..k])|));
    assert [] + localFiles + (directory + end) == localFiles + directory + end;
  }

  /** The names and contents of the entries to write. */
  function Plain(entries: seq<ZipFixtureEntry>): seq<Entry<Byte>> {
    seq(|entries|, i requires 0 <= i < |entries| => Entry(entries[i].fileName, entries[i].content))
  }

  /** Where the central headers of a written archive stand, from the k-th on. */
  function WrittenFrom(codec: Codec, entries: seq<ZipFixtureEntry>, k: nat): (cursors: seq<nat>)
    requires k <= |entries|
    ensures |cursors| == |entries| - k
  {
    seq(|entries| - k, i requires 0 <= i < |entries| - k =>
      |LocalParts(codec, entries)| + |CentralParts(codec, entries[..k + i])|)
  }

  lemma EntryAtIsRead(codec: Codec, entries: seq<ZipFixtureEntry>, k: nat)
    requires k < |entries| && EntriesFit(codec, entries) && Restores(codec, entries[k])
    ensures
      var b := Archive(codec, entries);
      var cursor := |LocalParts(codec, entries)| + |CentralParts(codec, entries[..k])|;
      && IsEntry(b, cursor)
      && NameAt(codec, b, cursor) == entries[k].fileName
      && Located(codec, b, cursor) == Some(entries[k].content)
      && cursor + EntryLength(b, cursor) == |LocalParts(codec, entries)| + |CentralParts(codec, entries[..k + 1])|
  {
    hide Archive, LocalParts, LocalPart, CentralPart, EntryFits, Restores, Located, IsEntry, NameAt, EntryLength;
    var cursor := |LocalParts(codec, entries)| + |CentralParts(codec, entries[..k])|;
    var offset := |LocalParts(codec, entries[..k])|;
    assert entries[..k + 1][..k] == entries[..k];
    assert CentralParts(codec, entries[..k + 1])
      == CentralParts(codec, entries[..k]) + CentralPart(codec, entries[k], offset);
    hide CentralParts;
    PartsStand(codec, entries, k);
    EntryIsRead(codec, Archive(codec, entries), cursor, entries[k], offset);
  }

  lemma {:induction false} WalkIsWritten(codec: Codec, entries: seq<ZipFixtureEntry>, k: nat)
    requires k <= |entries| && EntriesFit(codec, entries)
    requires forall e :: e in entries ==> Restores(codec, e)
    ensures
      var cursor := |LocalParts(codec, entries)| + |CentralParts(codec, entries[..k])|;
      Walk(Archive(codec, entries), cursor, |entries| - k) == WrittenFrom(codec, entries, k)
    decreases |entries| - k
  {
    hide Archive, LocalParts, CentralParts, EntriesFit, Restores, Located, IsEntry, NameAt, EntryLength;
    if k < |entries| {
      EntryAtIsRead(codec, entries, k);
      WalkIsWritten(codec, entries, k + 1);
    }
  }

  /** The first k written central headers are read as the first k entries. */
  lemma {:induction false} EntriesAreRead(codec: Codec, entries: seq<ZipFixtureEntry>, k: nat)
    requires k <= |entries| && EntriesFit(codec, entries)
    requires forall e :: e in entries ==> Restores(codec, e)
    ensures
      var b, cursors := Archive(codec, entries), WrittenFrom(codec, entries, 0)[..k];
      && AllEntries(b, cursors)
      && EntriesAt(codec, b, cursors) == Plain(entries)[..k]
  {
    hide Archive, LocalParts, CentralParts, EntriesFit, Restores, Located, IsEntry, NameAt;
    if k > 0 {
      EntriesAreRead(codec, entries, k - 1);
      EntryAtIsRead(codec, entries, k - 1);
      var cursors := WrittenFrom(codec, entries, 0);
      assert cursors[..k] == cursors[..k - 1] + [cursors[k - 1]];
      WalkOneMore(codec, Archive(codec, entries), cursors[..k - 1], cursors[k - 1]);
    }
  }

  lemma ArchiveIsFramed(codec: Codec, entries: seq<ZipFixtureEntry>)
    requires Fits(codec, entries)
    ensures
      var b := Archive(codec, entries);
      var end := |b| - 22;
      && EndOffset(b, end) == end >= 0
      && ReadUInt16LE(b, end + 10) == |entries|
      && ReadUInt32LE(b, end + 16) == |LocalParts(codec, entries)|
  {
    hide EndOffset, EntriesFit, EndRecord, ReadUInt16LE, ReadUInt32LE, LocalParts, CentralParts;
    var b, size, offset := Archive(codec, entries), |CentralParts(codec, entries)|, |LocalParts(codec, entries)|;
    assert StandsAt(b, |b| - 22, EndRecord(|entries|, size, offset));
    EndIsFound(b, |entries|, size, offset);
  }

  /** The entries found in a written archive are the entries written. */
  lemma FoundIsWritten(codec: Codec, entries: seq<ZipFixtureEntry>)
    requires Fits(codec, entries)
    requires forall e :: e in entries ==> Restores(codec, e)
    ensures Found(codec, Archive(codec, entries)) == Plain(entries)
  {
    hide Archive, LocalParts, EntriesFit, Restores, IsEntry, EndOffset, ReadUInt16LE, ReadUInt32LE, EntriesAt, Walk;
    ArchiveIsFramed(codec, entries);
    assert entries[..0] == [] && CentralParts(codec, []) == [];
    hide CentralParts;
    WalkIsWritten(codec, entries, 0);
    EntriesAreRead(codec, entries, |entries|);
    var cursors := WrittenFrom(codec, entries, 0);
    assert cursors[..|entries|] == cursors && Plain(entries)[..|entries|] == Plain(entries);
  }

  /**
   Reading a written archive gives its name-to-content map, last one winning, exactly when no entry is named
   __proto__. With such an entry the reader throws exactly when a later one cannot be assigned, and otherwise
   gives the names that survive.
   */
  lemma ReadUndoesWrite(codec: Codec, entries: seq<ZipFixtureEntry>)
    requires Fits(codec, entries)
    requires forall e :: e in entries ==> Restores(codec, e)
    ensures
      var r, plain := Read(codec, Archive(codec, entries)), Plain(entries);
      && (r == Ok(LastWins(plain)) <==> forall i :: 0 <= i < |entries| ==> entries[i].fileName != PROTO)
      && (r.Err? <==> Throws(plain))
      && (r.Ok? ==> forall name :: name in r.value <==> Survives(codec.isNumber, plain, name))
      && (r.Ok? ==> forall name :: name in r.value ==> name in LastWins(plain) && r.value[name] == LastWins(plain)[name])
  {
    hide Archive, Read, Found, Throws, Survives, Restores, Fits, LastWins;
    FoundIsWritten(codec, entries);
    ReadIsExact(codec, Archive(codec, entries));
    var plain := Plain(entries);
    assert forall i :: 0 <= i < |entries| ==> plain[i].name == entries[i].fileName;
  }

  datatype Failure = TooLarge(message: string) | Unassignable(message: string)

  /** Writing with the one method and reading with the other. */
  method WriteThenRead(codec: Codec, entries: seq<ZipFixtureEntry>) returns (r: Result<map<string, seq<Byte>>, Failure>)
    requires forall e :: e in entries ==> Restores(codec, e)
    ensures (r.Err? && r.error.TooLarge?) <==> !Fits(codec, entries)
    ensures (r.Err? && r.error.Unassignable?) <==> Fits(codec, entries) && Throws(Plain(entries))
    ensures r.Ok? ==> forall name :: name in r.value <==> Survives(codec.isNumber, Plain(entries), name)
    ensures r.Ok? ==> forall name :: name in r.value ==>
      name in LastWins(Plain(entries)) && r.value[name] == LastWins(Plain(entries))[name]
    ensures Fits(codec, entries) && (forall i :: 0 <= i < |entries| ==> entries[i].fileName != PROTO) ==>
      r == Ok(LastWins(Plain(entries)))
  {
    hide *;
    var archive := CreateStoredZipArchive(codec, entries);
    match archive
    case Err(message) =>
      return Err(TooLarge(message));
    case Ok(b) =>
      ReadUndoesWrite(codec, entries);
      var read := ReadZipArchiveEntries(codec, b);
      match read
      case Err(message) =>
        return Err(Unassignable(message));
      case Ok(members) =>
        return Ok(members);
  }
}
