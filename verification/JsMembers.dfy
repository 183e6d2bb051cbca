/**
 What an object literal holds after assigning byte arrays to it by name, one after the other.

 Assigning to __proto__ makes the array the object's prototype. From then on a name that the object does
 not have itself is looked up in that array first: some names it inherits cannot be assigned, and a number
 that is no index of it is ignored.
 */
module JsMembers {
  import opened JsText
  import opened Options

  datatype Entry<T> = Entry(name: string, content: seq<T>)

  /** The object's own members, and the array that has become its prototype, if any. */
  datatype Members<T> = Members(own: map<string, seq<T>>, prototype: Option<seq<T>>)

  const PROTO: string := "__proto__"

  /** Names a byte array inherits without a way to set them. */
  predicate IsFixed(name: string) {
    || name == "length"
    || name == "buffer"
    || name == "byteLength"
    || name == "byteOffset"
    || name == "BYTES_PER_ELEMENT"
  }

  predicate IsIndexBelow(name: string, length: nat) {
    exists i: nat :: i < length && name == Decimal(i)
  }

  /** One assignment; None is the TypeError. isNumber tells the names that are numbers written canonically. */
  function Assigned<T>(isNumber: string -> bool, members: Members<T>, entry: Entry<T>): Option<Members<T>> {
    var put := Members(members.own[entry.name := entry.content], members.prototype);
    if entry.name in members.own then Some(put)
    else if entry.name == PROTO then Some(Members(members.own, Some(entry.content)))
    else match members.prototype
      case None => Some(put)
      case Some(bytes) =>
        if IsFixed(entry.name) then None
        else if isNumber(entry.name) && !IsIndexBelow(entry.name, |bytes|) then Some(members)
        else Some(put)
  }

  /** All the assignments, in order, up to the first TypeError. */
  function Assignments<T>(isNumber: string -> bool, entries: seq<Entry<T>>): Option<Members<T>> {
    if entries == [] then Some(Members(map[], None))
    else
      match Assignments(isNumber, entries[..|entries| - 1])
      case None => None
      case Some(members) => Assigned(isNumber, members, entries[|entries| - 1])
  }

  // ----- What comes of the assignments

  /** The content of the last entry that is named __proto__. */
  function Prototype<T>(entries: seq<Entry<T>>): (prototype: Option<seq<T>>)
    ensures prototype.Some? <==> exists i :: 0 <= i < |entries| && entries[i].name == PROTO
  {
    if entries == [] then None
    else
      var last := entries[|entries| - 1];
      if last.name == PROTO then Some(last.content) else Prototype(entries[..|entries| - 1])
  }

  /** The name-to-content map of a list of entries: the last one wins on a repeated name. */
  function LastWins<T>(entries: seq<Entry<T>>): map<string, seq<T>> {
    if entries == [] then map[]
    else
      var last := entries[|entries| - 1];
      LastWins(entries[..|entries| - 1])[last.name := last.content]
  }

  lemma {:induction false} LastWinsHasTheNames<T>(entries: seq<Entry<T>>, name: string)
    ensures name in LastWins(entries) <==> exists i :: 0 <= i < |entries| && entries[i].name == name
  {
    if entries != [] {
      var earlier, last := entries[..|entries| - 1], entries[|entries| - 1];
      LastWinsHasTheNames(earlier, name);
      if i :| 0 <= i < |earlier| && earlier[i].name == name {
        assert entries[i].name == name;
      }
      if i :| 0 <= i < |entries| && entries[i].name == name {
        assert i < |earlier| ==> earlier[i].name == name;
      }
    }
  }

  lemma LastWinsOneMore<T>(entries: seq<Entry<T>>, last: Entry<T>)
    ensures LastWins(entries + [last]) == LastWins(entries)[last.name := last.content]
  {
    assert (entries + [last])[..|entries|] == entries;
  }

  lemma {:induction false} LastWinsIsTheLast<T>(entries: seq<Entry<T>>, k: nat)
    requires k < |entries| && forall j :: k < j < |entries| ==> entries[j].name != entries[k].name
    ensures entries[k].name in LastWins(entries) && LastWins(entries)[entries[k].name] == entries[k].content
  {
    if k < |entries| - 1 {
      LastWinsIsTheLast(entries[..|entries| - 1], k);
    }
  }

  /** The k-th entry has a name that cannot be set any more, and had not been set before it could not. */
  predicate ThrowsAt<T>(entries: seq<Entry<T>>, k: nat)
    requires k < |entries|
  {
    && IsFixed(entries[k].name)
    && exists i {:trigger entries[i]} ::
         && 0 <= i < k && entries[i].name == PROTO
         && forall j {:trigger entries[j]} :: 0 <= j < i ==> entries[j].name != entries[k].name
  }

  predicate Throws<T>(entries: seq<Entry<T>>) {
    exists k {:trigger ThrowsAt(entries, k)} :: 0 <= k < |entries| && ThrowsAt(entries, k)
  }

  /** After these entries, the name would become an own member. */
  predicate Lands<T>(isNumber: string -> bool, earlier: seq<Entry<T>>, name: string) {
    var bytes := Prototype(earlier);
    bytes.None? || !isNumber(name) || IsIndexBelow(name, |bytes.value|)
  }

  /** Some entry of the name becomes an own member. */
  predicate Survives<T>(isNumber: string -> bool, entries: seq<Entry<T>>, name: string) {
    && name != PROTO
    && exists k {:trigger entries[k]} ::
         0 <= k < |entries| && entries[k].name == name && Lands(isNumber, entries[..k], name)
  }

  lemma ThrowsOneMore<T>(entries: seq<Entry<T>>, last: Entry<T>)
    ensures Throws(entries + [last]) <==> Throws(entries) || ThrowsAt(entries + [last], |entries|)
  {
    forall k: nat | k < |entries| ensures ThrowsAt(entries + [last], k) <==> ThrowsAt(entries, k) {
      ThrowsAtInMore(entries, last, k);
    }
    if Throws(entries) {
      var k :| 0 <= k < |entries| && ThrowsAt(entries, k);
      assert ThrowsAt(entries + [last], k);
    }
  }

  lemma ThrowsAtInMore<T>(entries: seq<Entry<T>>, last: Entry<T>, k: nat)
    requires k < |entries|
    ensures ThrowsAt(entries + [last], k) <==> ThrowsAt(entries, k)
  {
    var more := entries + [last];
    assert forall i :: 0 <= i < |entries| ==> more[i] == entries[i];
  }

  lemma SurvivesOneMore<T>(isNumber: string -> bool, entries: seq<Entry<T>>, last: Entry<T>, name: string)
    ensures Survives(isNumber, entries + [last], name) <==>
      || Survives(isNumber, entries, name)
      || (name != PROTO && last.name == name && Lands(isNumber, entries, name))
  {
    var more := entries + [last];
    assert more[..|entries|] == entries;
    assert more[|entries|] == last;
    forall k | 0 <= k < |entries| ensures more[k] == entries[k] && more[..k] == entries[..k] {
    }
  }

  /** The name is an own member exactly when it survives, and then with its last content. */
  ghost predicate NameFaithful<T>(isNumber: string -> bool, entries: seq<Entry<T>>, own: map<string, seq<T>>, name: string) {
    && (name in own <==> Survives(isNumber, entries, name))
    && (name in own ==> name in LastWins(entries) && own[name] == LastWins(entries)[name])
  }

  ghost predicate FixedAreOwn<T>(entries: seq<Entry<T>>, own: map<string, seq<T>>) {
    forall i {:trigger entries[i]} :: 0 <= i < |entries| && IsFixed(entries[i].name) ==> entries[i].name in own
  }

  /** While nothing has thrown: every name is as it should be, and none that cannot be set is missing. */
  ghost predicate Faithful<T>(isNumber: string -> bool, entries: seq<Entry<T>>, members: Members<T>) {
    && members.prototype == Prototype(entries)
    && (forall name {:trigger NameFaithful(isNumber, entries, members.own, name)} ::
          NameFaithful(isNumber, entries, members.own, name))
    && FixedAreOwn(entries, members.own)
  }

  /** The last of several entries throws exactly when it is assigned a name that cannot be set. */
  lemma LastThrows<T>(isNumber: string -> bool, earlier: seq<Entry<T>>, last: Entry<T>, members: Members<T>)
    requires Faithful(isNumber, earlier, members) && !Throws(earlier)
    ensures Assigned(isNumber, members, last).None? <==> ThrowsAt(earlier + [last], |earlier|)
  {
    hide NameFaithful, Survives, Throws, IsFixed, IsIndexBelow;
    assert NameFaithful(isNumber, earlier, members.own, last.name);
    var entries := earlier + [last];
    assert forall i :: 0 <= i < |earlier| ==> entries[i] == earlier[i];
    if Assigned(isNumber, members, last).None? {
      var i :| 0 <= i < |earlier| && earlier[i].name == PROTO;
      assert entries[i].name == PROTO;
    } else if ThrowsAt(entries, |earlier|) {
      FixedIsNotProto();
      ThrowsBefore(isNumber, earlier, last.name, members.own);
    }
  }

  lemma FixedIsNotProto()
    ensures !IsFixed(PROTO)
  {
    assert |PROTO| == 9 && |"length"| == 6 && |"buffer"| == 6 && |"byteLength"| == 10 && |"byteOffset"| == 10;
    assert |"BYTES_PER_ELEMENT"| == 17;
  }

  /** A name that cannot be set and became a member after the prototype changed has thrown already. */
  lemma ThrowsBefore<T>(isNumber: string -> bool, earlier: seq<Entry<T>>, name: string, own: map<string, seq<T>>)
    requires NameFaithful(isNumber, earlier, own, name) && IsFixed(name)
    requires exists i {:trigger earlier[i]} ::
      && 0 <= i < |earlier| && earlier[i].name == PROTO
      && forall j {:trigger earlier[j]} :: 0 <= j < i ==> earlier[j].name != name
    ensures name in own ==> Throws(earlier)
  {
    hide IsFixed, IsIndexBelow, Lands;
    FixedIsNotProto();
    if name in own {
      var k :| 0 <= k < |earlier| && earlier[k].name == name && Lands(isNumber, earlier[..k], name);
      assert ThrowsAt(earlier, k);
    }
  }

  lemma FaithfulOneMore<T>(isNumber: string -> bool, earlier: seq<Entry<T>>, last: Entry<T>, members: Members<T>)
    requires Faithful(isNumber, earlier, members) && Assigned(isNumber, members, last).Some?
    ensures Faithful(isNumber, earlier + [last], Assigned(isNumber, members, last).value)
  {
    var entries, more := earlier + [last], Assigned(isNumber, members, last).value;
    forall name ensures NameFaithful(isNumber, entries, more.own, name) {
      assert NameFaithful(isNumber, earlier, members.own, name);
      NameOneMore(isNumber, earlier, last, members, name);
    }
    assert NameFaithful(isNumber, earlier, members.own, PROTO) && PROTO !in members.own;
    hide NameFaithful;
    FixedOneMore(isNumber, earlier, last, members);
    PrototypeOneMore(isNumber, earlier, last, members);
  }

  lemma NameOneMore<T>(
      isNumber: string -> bool, earlier: seq<Entry<T>>, last: Entry<T>, members: Members<T>, name: string)
    requires NameFaithful(isNumber, earlier, members.own, name)
    requires NameFaithful(isNumber, earlier, members.own, last.name)
    requires members.prototype == Prototype(earlier) && Assigned(isNumber, members, last).Some?
    ensures NameFaithful(isNumber, earlier + [last], Assigned(isNumber, members, last).value.own, name)
  {
    hide Survives, IsIndexBelow, IsFixed, Prototype;
    assert (earlier + [last])[..|earlier|] == earlier;
    SurvivesOneMore(isNumber, earlier, last, name);
    SurvivorsHaveNames(isNumber, earlier, name);
  }

  lemma FixedOneMore<T>(isNumber: string -> bool, earlier: seq<Entry<T>>, last: Entry<T>, members: Members<T>)
    requires FixedAreOwn(earlier, members.own) && Assigned(isNumber, members, last).Some?
    ensures FixedAreOwn(earlier + [last], Assigned(isNumber, members, last).value.own)
  {
    hide IsIndexBelow, IsFixed;
    FixedIsNotProto();
    var entries, own := earlier + [last], Assigned(isNumber, members, last).value.own;
    forall i | 0 <= i < |entries| && IsFixed(entries[i].name) ensures entries[i].name in own {
      assert i < |earlier| ==> earlier[i] == entries[i];
    }
  }

  lemma PrototypeOneMore<T>(isNumber: string -> bool, earlier: seq<Entry<T>>, last: Entry<T>, members: Members<T>)
    requires members.prototype == Prototype(earlier) && Assigned(isNumber, members, last).Some?
    requires PROTO !in members.own
    ensures Assigned(isNumber, members, last).value.prototype == Prototype(earlier + [last])
  {
    hide IsIndexBelow, IsFixed;
    assert (earlier + [last])[..|earlier|] == earlier;
  }

  lemma SurvivorsHaveNames<T>(isNumber: string -> bool, entries: seq<Entry<T>>, name: string)
    ensures Survives(isNumber, entries, name) ==> name != PROTO && name in LastWins(entries)
  {
    LastWinsHasTheNames(entries, name);
  }

  /** The assignments throw exactly on such an entry, and otherwise own exactly the names that survive. */
  lemma {:induction false} AssignmentsAreExact<T>(isNumber: string -> bool, entries: seq<Entry<T>>)
    ensures var members := Assignments(isNumber, entries);
      && (members.None? <==> Throws(entries))
      && (members.Some? ==> Faithful(isNumber, entries, members.value))
  {
    hide Faithful, Throws, ThrowsAt, Assigned;
    if entries == [] {
      NothingIsFaithful(isNumber, entries);
    } else {
      var earlier, last := entries[..|entries| - 1], entries[|entries| - 1];
      assert entries == earlier + [last];
      AssignmentsAreExact(isNumber, earlier);
      ThrowsOneMore(earlier, last);
      var members := Assignments(isNumber, earlier);
      if members.Some? {
        LastThrows(isNumber, earlier, last, members.value);
        if Assigned(isNumber, members.value, last).Some? {
          FaithfulOneMore(isNumber, earlier, last, members.value);
        }
      }
    }
  }

  lemma NothingIsFaithful<T>(isNumber: string -> bool, entries: seq<Entry<T>>)
    requires entries == []
    ensures Faithful(isNumber, entries, Members(map[], None)) && !Throws(entries)
  {
  }

  /** A filled object as its own members, or the TypeError. */
  function Outcome<T>(members: Option<Members<T>>): Result<map<string, seq<T>>, string> {
    if members.Some? then Ok(members.value.own) else Err("TypeError")
  }

  /**
   What filling an object gives: a TypeError exactly when some entry throws; otherwise exactly the
   surviving names, each with its last content; and the whole map exactly when no entry is named __proto__.
   */
  lemma FillingIsExact<T>(isNumber: string -> bool, entries: seq<Entry<T>>)
    ensures
      var r := Outcome(Assignments(isNumber, entries));
      && (r.Err? <==> Throws(entries))
      && (r.Ok? ==> forall name :: name in r.value <==> Survives(isNumber, entries, name))
      && (r.Ok? ==> forall name :: name in r.value ==>
            name in LastWins(entries) && r.value[name] == LastWins(entries)[name])
      && (r == Ok(LastWins(entries)) <==> forall i :: 0 <= i < |entries| ==> entries[i].name != PROTO)
  {
    AssignmentsAreExact(isNumber, entries);
    var r := Outcome(Assignments(isNumber, entries));
    hide Throws, Assigned;
    if r.Ok? {
      forall name
        ensures name in r.value <==> Survives(isNumber, entries, name)
        ensures name in r.value ==> name in LastWins(entries) && r.value[name] == LastWins(entries)[name]
      {
        assert NameFaithful(isNumber, entries, r.value, name);
      }
    }
    hide Faithful;
    if i :| 0 <= i < |entries| && entries[i].name == PROTO {
      LastWinsHasTheNames(entries, PROTO);
      assert PROTO in LastWins(entries);
      assert r.Ok? ==> PROTO !in r.value;
    } else {
      NothingThrows(entries);
      WithoutProtoAllSurvive(isNumber, entries);
      assert r.value == LastWins(entries);
    }
  }

  lemma NothingThrows<T>(entries: seq<Entry<T>>)
    requires forall i :: 0 <= i < |entries| ==> entries[i].name != PROTO
    ensures !Throws(entries)
  {
  }

  lemma WithoutProtoAllSurvive<T>(isNumber: string -> bool, entries: seq<Entry<T>>)
    requires forall i :: 0 <= i < |entries| ==> entries[i].name != PROTO
    ensures forall name :: name in LastWins(entries) <==> Survives(isNumber, entries, name)
  {
    forall name ensures name in LastWins(entries) <==> Survives(isNumber, entries, name) {
      SurvivorsHaveNames(isNumber, entries, name);
      LastWinsHasTheNames(entries, name);
      AllNamesSurvive(isNumber, entries, name);
    }
  }

  lemma AllNamesSurvive<T>(isNumber: string -> bool, entries: seq<Entry<T>>, name: string)
    requires forall i :: 0 <= i < |entries| ==> entries[i].name != PROTO
    ensures (exists i :: 0 <= i < |entries| && entries[i].name == name) ==> Survives(isNumber, entries, name)
  {
    if i :| 0 <= i < |entries| && entries[i].name == name {
      var k :| 0 <= k < |entries| && entries[k].name == name;
      assert forall i :: 0 <= i < k ==> entries[..k][i] == entries[i];
      assert Lands(isNumber, entries[..k], name);
    }
  }

  /** Nothing more is assigned once an assignment has thrown. */
  lemma {:induction false} StaysThrown<T>(isNumber: string -> bool, entries: seq<Entry<T>>, more: seq<Entry<T>>)
    requires Assignments(isNumber, entries).None?
    ensures Assignments(isNumber, entries + more).None?
  {
    if more == [] {
      assert entries + more == entries;
    } else {
      StaysThrown(isNumber, entries, more[..|more| - 1]);
      assert (entries + more)[..|entries + more| - 1] == entries + more[..|more| - 1];
    }
  }
}
