/** The key-encryption-key ring: its parser, key lookup, and the builder for throw-away rings. */
module KekRing {
  import opened Base64
  import opened Common
  import opened Integers
  import opened Utf8

  /** JSON values as the library reads them; an object is its entries in order, each name once. */
  datatype Json =
    | Null
    | Bool(truth: bool)
    | Integer(number: int)
    | Float(fraction: real)
    | Text(text: string)
    | List(items: seq<Json>)
    | Object(entries: seq<Entry>)

  datatype Entry = Entry(name: string, value: Json)

  const KEK_SIZE: nat := 32

  type Key = k: seq<Byte> | |k| == 32 witness seq(32, i => 0)

  datatype Ring = Ring(schemaVersion: Json, active: int, keys: map<int, Key>)

  datatype KekError = SchemaUnsupported | RingInvalid | VersionInvalid | VersionUnknown | NumberTooLong

  /** dict.get: the value under the name, or null. */
  function Field(entries: seq<Entry>, name: string): Json {
    if entries == [] then Null
    else if entries[0].name == name then entries[0].value
    else Field(entries[1..], name)
  }

  /** Equal to 1 in the sense of the language, where true and 1.0 are. */
  predicate IsOne(j: Json) {
    j == Integer(1) || j == Bool(true) || j == Float(1.0)
  }

  // ----- parsing -----

  /** Reads one entry: its version and its key, if both are as they should be. */
  function ReadEntry(e: Entry, other: char -> Option<nat>): Option<(int, Key)> {
    var version := ParseInt(e.name, other);
    if version.None? || version.value < 1 || !e.value.Text? then None
    else
      var material := DecodeBase64(e.value.text);
      if material.None? || |material.value| != KEK_SIZE then None else Some((version.value, material.value))
  }

  function Reader(other: char -> Option<nat>): Entry -> Option<(int, Key)> {
    e => ReadEntry(e, other)
  }

  /** The keys of the entries, or None when an entry is bad or repeats a version. */
  function KeysOf<E, V>(entries: seq<E>, read: E -> Option<(int, V)>): Option<map<int, V>> {
    if entries == [] then Some(map[])
    else
      var n := |entries| - 1;
      var keys := KeysOf(entries[..n], read);
      var last := read(entries[n]);
      if keys.None? || last.None? || last.value.0 in keys.value then None
      else Some(keys.value[last.value.0 := last.value.1])
  }

  function Parsed(data: Json, other: char -> Option<nat>): Result<Ring, KekError> {
    if !data.Object? then Err(RingInvalid)
    else
      var schema := Field(data.entries, "schema_version");
      var active := Field(data.entries, "active_kek_version");
      var keysField := Field(data.entries, "keys");
      if !IsOne(schema) then Err(SchemaUnsupported)
      else if !active.Integer? || active.number < 1 then Err(RingInvalid)
      else if !keysField.Object? || keysField.entries == [] then Err(RingInvalid)
      else
        var keys := KeysOf(keysField.entries, Reader(other));
        if keys.None? || active.number !in keys.value then Err(RingInvalid)
        else Ok(Ring(schema, active.number, keys.value))
  }

  method ParseKekRing(data: Json, other: char -> Option<nat>) returns (r: Result<Ring, KekError>)
    ensures r == Parsed(data, other)
  {
    if !data.Object? { return Err(RingInvalid); }
    var schema := Field(data.entries, "schema_version");
    var active := Field(data.entries, "active_kek_version");
    var keysField := Field(data.entries, "keys");
    if !IsOne(schema) { return Err(SchemaUnsupported); }
    if !active.Integer? || active.number < 1 { return Err(RingInvalid); }
    if !keysField.Object? || keysField.entries == [] { return Err(RingInvalid); }

    var entries := keysField.entries;
    var keys: map<int, Key> := map[];
    for n := 0 to |entries|
      invariant KeysOf(entries[..n], Reader(other)) == Some(keys)
    {
      KeysSnoc(entries, n, Reader(other));
      NoKeysFrom(entries, n + 1, Reader(other));
      var version := ParseInt(entries[n].name, other);
      if version.None? { return Err(RingInvalid); }
      if version.value < 1 { return Err(RingInvalid); }
      if !entries[n].value.Text? { return Err(RingInvalid); }
      var material := DecodeBase64(entries[n].value.text);
      if material.None? { return Err(RingInvalid); }
      if |material.value| != KEK_SIZE { return Err(RingInvalid); }
      if version.value in keys { return Err(RingInvalid); }
      keys := keys[version.value := material.value];
    }
    assert entries[..|entries|] == entries;
    if active.number !in keys { return Err(RingInvalid); }
    r := Ok(Ring(schema, active.number, keys));
  }

  lemma KeysSnoc<E, V>(entries: seq<E>, n: nat, read: E -> Option<(int, V)>)
    requires n < |entries|
    ensures
      var keys, next := KeysOf(entries[..n], read), read(entries[n]);
      KeysOf(entries[..n + 1], read) ==
        if keys.None? || next.None? || next.value.0 in keys.value then None
        else Some(keys.value[next.value.0 := next.value.1])
  {
    assert entries[..n + 1][..n] == entries[..n];
  }

  /** A failing entry fails the whole ring. */
  lemma {:induction false} NoKeysFrom<E, V>(entries: seq<E>, n: nat, read: E -> Option<(int, V)>)
    requires n <= |entries|
    ensures KeysOf(entries[..n], read).None? ==> KeysOf(entries, read).None?
  {
    if n == |entries| {
      assert entries[..n] == entries;
    } else {
      var m := |entries| - 1;
      assert entries[..m][..n] == entries[..n];
      NoKeysFrom(entries[..m], n, read);
    }
  }

  // ----- what an accepted ring is -----

  /** Every entry is good and no two spell the same version. */
  ghost predicate EntriesGood<E, V>(entries: seq<E>, read: E -> Option<(int, V)>) {
    && (forall k :: 0 <= k < |entries| ==> read(entries[k]).Some?)
    && (forall j, k :: 0 <= j < k < |entries| ==> read(entries[j]).value.0 != read(entries[k]).value.0)
  }

  /** The ring holds each entry's key under its version, and nothing else. */
  ghost predicate HoldsEntries<E, V>(keys: map<int, V>, entries: seq<E>, read: E -> Option<(int, V)>) {
    HoldsAll(keys, entries, read) && HoldsOnly(keys, entries, read) && |keys| == |entries|
  }

  ghost predicate HoldsAll<E, V>(keys: map<int, V>, entries: seq<E>, read: E -> Option<(int, V)>) {
    forall k :: 0 <= k < |entries| ==> Holds(keys, read(entries[k]))
  }

  ghost predicate HoldsOnly<E, V>(keys: map<int, V>, entries: seq<E>, read: E -> Option<(int, V)>) {
    forall v :: v in keys ==> Named(entries, read, v)
  }

  ghost predicate Named<E, V>(entries: seq<E>, read: E -> Option<(int, V)>, version: int) {
    exists k :: 0 <= k < |entries| && Names(read(entries[k]), version)
  }

  ghost predicate Holds<V>(keys: map<int, V>, pair: Option<(int, V)>) {
    pair.Some? && pair.value.0 in keys && keys[pair.value.0] == pair.value.1
  }

  ghost predicate Names<V>(pair: Option<(int, V)>, version: int) {
    pair.Some? && pair.value.0 == version
  }

  lemma MoreHoldsAll<E, V>(keys: map<int, V>, entries: seq<E>, last: E, read: E -> Option<(int, V)>)
    requires HoldsAll(keys, entries, read) && read(last).Some? && read(last).value.0 !in keys
    ensures HoldsAll(keys[read(last).value.0 := read(last).value.1], entries + [last], read)
  {
    var all, more := entries + [last], keys[read(last).value.0 := read(last).value.1];
    forall k | 0 <= k < |all| ensures Holds(more, read(all[k])) {
      if k < |entries| { assert Holds(keys, read(entries[k])); }
    }
  }

  lemma MoreNamed<E, V>(entries: seq<E>, last: E, read: E -> Option<(int, V)>, version: int)
    requires Named(entries, read, version) || Names(read(last), version)
    ensures Named(entries + [last], read, version)
  {
    var all := entries + [last];
    assert all[|entries|] == last;
    if Named(entries, read, version) {
      var k :| 0 <= k < |entries| && Names(read(entries[k]), version);
      assert all[k] == entries[k];
    }
  }

  lemma OneMoreEntry<E, V>(keys: map<int, V>, entries: seq<E>, last: E, read: E -> Option<(int, V)>)
    requires HoldsEntries(keys, entries, read) && read(last).Some? && read(last).value.0 !in keys
    ensures HoldsEntries(keys[read(last).value.0 := read(last).value.1], entries + [last], read)
  {
    var more := keys[read(last).value.0 := read(last).value.1];
    assert more.Keys == keys.Keys + {read(last).value.0};
    MoreHoldsAll(keys, entries, last, read);
    forall v | v in more ensures Named(entries + [last], read, v) {
      MoreNamed(entries, last, read, v);
    }
  }

  lemma GoodSnoc<E, V>(entries: seq<E>, last: E, read: E -> Option<(int, V)>)
    ensures EntriesGood(entries + [last], read) <==>
      EntriesGood(entries, read) && read(last).Some? && !Named(entries, read, read(last).value.0)
  {
    var all := entries + [last];
    assert all[|entries|] == last;
    assert forall k :: 0 <= k < |entries| ==> all[k] == entries[k];
  }

  lemma NamedIffHeld<E, V>(keys: map<int, V>, entries: seq<E>, read: E -> Option<(int, V)>, version: int)
    requires HoldsEntries(keys, entries, read)
    ensures Named(entries, read, version) <==> version in keys
  {
    if Named(entries, read, version) {
      var k :| 0 <= k < |entries| && Names(read(entries[k]), version);
      assert Holds(keys, read(entries[k]));
    }
  }

  /** Keys come out exactly when all entries are good, and then they are the entries' keys. */
  lemma {:induction false} KeysIff<E, V>(entries: seq<E>, read: E -> Option<(int, V)>)
    ensures KeysOf(entries, read).Some? <==> EntriesGood(entries, read)
    ensures KeysOf(entries, read).Some? ==> HoldsEntries(KeysOf(entries, read).value, entries, read)
  {
    if entries != [] {
      var n := |entries| - 1;
      var before, last := entries[..n], entries[n];
      KeysIff(before, read);
      assert entries == before + [last];
      GoodSnoc(before, last, read);
      if KeysOf(before, read).Some? && read(last).Some? {
        var keys := KeysOf(before, read).value;
        NamedIffHeld(keys, before, read, read(last).value.0);
        if read(last).value.0 !in keys { OneMoreEntry(keys, before, last, read); }
      }
    }
  }

  /** The keys object of ring data, as its entries. */
  function KeyEntries(data: Json): seq<Entry> {
    if data.Object? && Field(data.entries, "keys").Object? then Field(data.entries, "keys").entries else []
  }

  /**
   * The accepted rings: schema 1, a positive active version, and entries that are all good, spell
   * pairwise different versions and include the active one.
   */
  lemma RingAcceptedIff(data: Json, other: char -> Option<nat>)
    ensures Parsed(data, other).Ok? <==>
      && data.Object?
      && IsOne(Field(data.entries, "schema_version"))
      && Field(data.entries, "active_kek_version").Integer?
      && 1 <= Field(data.entries, "active_kek_version").number
      && EntriesGood(KeyEntries(data), Reader(other))
      && Named(KeyEntries(data), Reader(other), Field(data.entries, "active_kek_version").number)
    ensures
      var r := Parsed(data, other);
      r.Ok? ==>
        && r.value.active == Field(data.entries, "active_kek_version").number
        && HoldsEntries(r.value.keys, KeyEntries(data), Reader(other))
  {
    var entries := KeyEntries(data);
    KeysIff(entries, Reader(other));
    if data.Object? && Field(data.entries, "active_kek_version").Integer? && KeysOf(entries, Reader(other)).Some? {
      var active := Field(data.entries, "active_kek_version").number;
      NamedIffHeld(KeysOf(entries, Reader(other)).value, entries, Reader(other), active);
    }
  }

  /** A good entry: a name that reads as a positive number, and 43 base-64 symbols with one padding character. */
  lemma EntryReadIff(e: Entry, other: char -> Option<nat>)
    ensures ReadEntry(e, other).Some? <==>
      && ParseInt(e.name, other).Some? && 1 <= ParseInt(e.name, other).value
      && e.value.Text? && PaddedOnce(e.value.text, 10)
  {
    if e.value.Text? { OnePadIff(e.value.text, 10); }
  }

  /** Two spellings of one version in the keys object make the ring invalid. */
  lemma TwoSpellingsRejected(data: Json, other: char -> Option<nat>, j: nat, k: nat)
    requires j < k < |KeyEntries(data)|
    requires ParseInt(KeyEntries(data)[j].name, other) == ParseInt(KeyEntries(data)[k].name, other)
    ensures Parsed(data, other).Err?
  {
    var entries := KeyEntries(data);
    assert Reader(other)(entries[j]) == ReadEntry(entries[j], other);
    assert Reader(other)(entries[k]) == ReadEntry(entries[k], other);
    assert !EntriesGood(entries, Reader(other));
    RingAcceptedIff(data, other);
  }

  // ----- lookup -----

  function Lookup(ring: Ring, version: int): Result<Key, KekError> {
    if version < 1 then Err(VersionInvalid)
    else if version !in ring.keys then Err(VersionUnknown)
    else Ok(ring.keys[version])
  }

  /** An accepted ring answers for exactly the versions its keys object spells, the active one included. */
  lemma LookupIff(data: Json, other: char -> Option<nat>, version: int)
    requires Parsed(data, other).Ok?
    ensures
      var ring := Parsed(data, other).value;
      && (Lookup(ring, version).Ok? <==> Named(KeyEntries(data), Reader(other), version))
      && Lookup(ring, ring.active).Ok?
  {
    RingAcceptedIff(data, other);
    NamedIffHeld(Parsed(data, other).value.keys, KeyEntries(data), Reader(other), version);
    if Named(KeyEntries(data), Reader(other), version) {
      var k :| 0 <= k < |KeyEntries(data)| && Names(Reader(other)(KeyEntries(data)[k]), version);
      EntryReadIff(KeyEntries(data)[k], other);
    }
  }

  // ----- building -----

  /** The place of a version in an ordered dict, or the end. */
  function IndexOf(dict: seq<(int, Key)>, version: int): (i: nat)
    ensures i <= |dict| && (i < |dict| ==> dict[i].0 == version)
  {
    if dict == [] then 0
    else
      var n := |dict| - 1;
      var i := IndexOf(dict[..n], version);
      if i < n then i else if dict[n].0 == version then n else n + 1
  }

  /** Assignment into an ordered dict: a known version keeps its place, a new one goes to the end. */
  function Put(dict: seq<(int, Key)>, version: int, key: Key): seq<(int, Key)> {
    var i := IndexOf(dict, version);
    if i < |dict| then dict[i := (version, key)] else dict + [(version, key)]
  }

  /** The fresh active key, then the extra ones over it. */
  function Material(active: int, random: Key, extra: seq<(int, seq<Byte>)>): Option<seq<(int, Key)>> {
    if extra == [] then Some([(active, random)])
    else
      var n := |extra| - 1;
      var before := Material(active, random, extra[..n]);
      if before.None? || extra[n].0 < 1 || |extra[n].1| != KEK_SIZE then None
      else Some(Put(before.value, extra[n].0, extra[n].1))
  }

  function EntryFor(version: int, key: Key): Option<Entry> {
    if FormatInt(version).None? then None
    else Some(Entry(FormatInt(version).value, Text(EncodeBase64(key))))
  }

  /** One entry for each key; None where a version is too long to be written out. */
  function EntriesFor(dict: seq<(int, Key)>): Option<seq<Entry>> {
    if dict == [] then Some([])
    else
      var n := |dict| - 1;
      var before, last := EntriesFor(dict[..n]), EntryFor(dict[n].0, dict[n].1);
      if before.None? || last.None? then None else Some(before.value + [last.value])
  }

  function RingData(active: int, entries: seq<Entry>): Json {
    Object([Entry("schema_version", Integer(1)), Entry("active_kek_version", Integer(active)),
      Entry("keys", Object(entries))])
  }

  function Built(active: int, random: Key, extra: seq<(int, seq<Byte>)>): Result<Json, KekError> {
    var material := Material(active, random, extra);
    if material.None? then Err(RingInvalid)
    else if EntriesFor(material.value).None? then Err(NumberTooLong)
    else Ok(RingData(active, EntriesFor(material.value).value))
  }

  /** The extra versions are the items of a mapping; the fresh key is what the random source gave. */
  method BuildEphemeralKekRing(active: int, random: Key, extra: seq<(int, seq<Byte>)>)
    returns (r: Result<Json, KekError>)
    ensures r == Built(active, random, extra)
  {
    var material := [(active, random)];
    for n := 0 to |extra|
      invariant Material(active, random, extra[..n]) == Some(material)
    {
      assert extra[..n + 1][..n] == extra[..n];
      NoMaterialFrom(active, random, extra, n + 1);
      if extra[n].0 < 1 || |extra[n].1| != KEK_SIZE { return Err(RingInvalid); }
      material := Put(material, extra[n].0, extra[n].1);
    }
    assert extra[..|extra|] == extra;
    var keys: seq<Entry> := [];
    for n := 0 to |material|
      invariant EntriesFor(material[..n]) == Some(keys)
    {
      assert material[..n + 1][..n] == material[..n];
      NoEntriesFrom(material, n + 1);
      var name := FormatInt(material[n].0);
      if name.None? { return Err(NumberTooLong); }
      keys := keys + [Entry(name.value, Text(EncodeBase64(material[n].1)))];
    }
    assert material[..|material|] == material;
    r := Ok(RingData(active, keys));
  }

  lemma {:induction false} NoMaterialFrom(active: int, random: Key, extra: seq<(int, seq<Byte>)>, n: nat)
    requires n <= |extra|
    ensures Material(active, random, extra[..n]).None? ==> Material(active, random, extra).None?
  {
    if n == |extra| {
      assert extra[..n] == extra;
    } else {
      var m := |extra| - 1;
      assert extra[..m][..n] == extra[..n];
      NoMaterialFrom(active, random, extra[..m], n);
    }
  }

  lemma {:induction false} NoEntriesFrom(dict: seq<(int, Key)>, n: nat)
    requires n <= |dict|
    ensures EntriesFor(dict[..n]).None? ==> EntriesFor(dict).None?
  {
    if n == |dict| {
      assert dict[..n] == dict;
    } else {
      var m := |dict| - 1;
      assert dict[..m][..n] == dict[..n];
      NoEntriesFrom(dict[..m], n);
    }
  }

  // ----- building and parsing -----

  const ITSELF: ((int, Key)) -> Option<(int, Key)> := (pair: (int, Key)) => Some(pair)

  /** Items of a mapping, as a mapping. */
  function AsMap(items: seq<(int, seq<Byte>)>): map<int, seq<Byte>> {
    if items == [] then map[]
    else AsMap(items[..|items| - 1])[items[|items| - 1].0 := items[|items| - 1].1]
  }

  lemma {:induction false} IndexOfKnown(dict: seq<(int, Key)>, version: int)
    requires KeysOf(dict, ITSELF).Some?
    ensures IndexOf(dict, version) < |dict| <==> version in KeysOf(dict, ITSELF).value
  {
    if dict != [] { IndexOfKnown(dict[..|dict| - 1], version); }
  }

  lemma KeysAppend(dict: seq<(int, Key)>, version: int, key: Key)
    requires KeysOf(dict, ITSELF).Some? && version !in KeysOf(dict, ITSELF).value
    ensures KeysOf(dict + [(version, key)], ITSELF) == Some(KeysOf(dict, ITSELF).value[version := key])
  {
    assert (dict + [(version, key)])[..|dict|] == dict;
  }

  /** Assignment changes the mapping at the one version. */
  lemma {:induction false} PutUpdates(dict: seq<(int, Key)>, version: int, key: Key)
    requires KeysOf(dict, ITSELF).Some?
    ensures KeysOf(Put(dict, version, key), ITSELF) == Some(KeysOf(dict, ITSELF).value[version := key])
    decreases |dict|
  {
    IndexOfKnown(dict, version);
    if version !in KeysOf(dict, ITSELF).value {
      KeysAppend(dict, version, key);
    } else {
      var n := |dict| - 1;
      var before, last := dict[..n], dict[n];
      IndexOfKnown(before, version);
      if last.0 == version {
        assert Put(dict, version, key) == before + [(version, key)];
        KeysAppend(before, version, key);
        assert KeysOf(dict, ITSELF).value[version := key] == KeysOf(before, ITSELF).value[version := key];
      } else {
        PutUpdates(before, version, key);
        assert Put(dict, version, key) == Put(before, version, key) + [last];
        KeysAppend(Put(before, version, key), last.0, last.1);
        assert KeysOf(dict, ITSELF).value[version := key] ==
          KeysOf(before, ITSELF).value[version := key][last.0 := last.1];
      }
    }
  }

  lemma {:induction false} MaterialIsMapping(active: int, random: Key, extra: seq<(int, seq<Byte>)>)
    requires Material(active, random, extra).Some?
    ensures KeysOf(Material(active, random, extra).value, ITSELF) == Some(map[active := random] + AsMap(extra))
  {
    if extra == [] {
      KeysAppend([], active, random);
      assert [] + [(active, random)] == [(active, random)];
      assert map[active := random] + AsMap([]) == map[active := random];
    } else {
      var n := |extra| - 1;
      MaterialIsMapping(active, random, extra[..n]);
      PutUpdates(Material(active, random, extra[..n]).value, extra[n].0, extra[n].1);
      assert map[active := random] + AsMap(extra)
          == (map[active := random] + AsMap(extra[..n]))[extra[n].0 := extra[n].1];
    }
  }

  predicate Positive(dict: seq<(int, Key)>) {
    forall k :: 0 <= k < |dict| ==> 1 <= dict[k].0
  }

  lemma {:induction false} MaterialIsPositive(active: int, random: Key, extra: seq<(int, seq<Byte>)>)
    requires Material(active, random, extra).Some? && 1 <= active
    ensures Positive(Material(active, random, extra).value)
  {
    if extra != [] { MaterialIsPositive(active, random, extra[..|extra| - 1]); }
  }

  lemma EntryForReadsBack(version: int, key: Key, other: char -> Option<nat>)
    requires EntryFor(version, key).Some? && 1 <= version
    ensures ReadEntry(EntryFor(version, key).value, other) == Some((version, key))
  {
    ParseFormatted(version, other);
    DecodeEncodeBase64(key);
  }

  /** Entries written from a dict read back as the dict. */
  lemma {:induction false} EntriesReadBack(dict: seq<(int, Key)>, other: char -> Option<nat>)
    requires EntriesFor(dict).Some? && Positive(dict)
    ensures KeysOf(EntriesFor(dict).value, Reader(other)) == KeysOf(dict, ITSELF)
  {
    if dict != [] {
      var n := |dict| - 1;
      EntriesReadBack(dict[..n], other);
      EntryForReadsBack(dict[n].0, dict[n].1, other);
      var before := EntriesFor(dict[..n]).value;
      assert EntriesFor(dict).value[..|before|] == before;
    }
  }

  lemma {:induction false} EntriesForLength(dict: seq<(int, Key)>)
    requires EntriesFor(dict).Some?
    ensures |EntriesFor(dict).value| == |dict|
  {
    if dict != [] { EntriesForLength(dict[..|dict| - 1]); }
  }

  lemma FieldsOfRing(active: int, entries: seq<Entry>)
    ensures
      var fields := RingData(active, entries).entries;
      && Field(fields, "schema_version") == Integer(1)
      && Field(fields, "active_kek_version") == Integer(active)
      && Field(fields, "keys") == Object(entries)
  {
    var fields := RingData(active, entries).entries;
    var a, s, k := "active_kek_version", "schema_version", "keys";
    assert a[0] == 'a' && s[0] == 's' && k[0] == 'k';
    assert fields[1..][0].name == a && fields[1..][1..][0].name == k;
    assert Field(fields, k) == Field(fields[1..], k) == Field(fields[1..][1..], k);
  }

  lemma ParsedOfRingData(active: int, entries: seq<Entry>, other: char -> Option<nat>)
    requires entries != []
    ensures
      var keys := KeysOf(entries, Reader(other));
      Parsed(RingData(active, entries), other) ==
        if active < 1 || keys.None? || active !in keys.value then Err(RingInvalid)
        else Ok(Ring(Integer(1), active, keys.value))
  {
    FieldsOfRing(active, entries);
  }

  lemma MaterialIsNotEmpty(active: int, random: Key, extra: seq<(int, seq<Byte>)>)
    requires Material(active, random, extra).Some?
    ensures Material(active, random, extra).value != []
  {
    MaterialIsMapping(active, random, extra);
    assert active in map[active := random] + AsMap(extra);
  }

  /**
   * A built ring parses exactly when its active version is positive, which the builder does not
   * check; the parsed ring then has that active version and exactly the given versions and keys.
   */
  lemma ParseBuilt(active: int, random: Key, extra: seq<(int, seq<Byte>)>, other: char -> Option<nat>)
    requires Built(active, random, extra).Ok?
    ensures
      var r := Parsed(Built(active, random, extra).value, other);
      if active < 1 then r == Err(RingInvalid)
      else
        && r.Ok? && r.value.schemaVersion == Integer(1) && r.value.active == active
        && r.value.keys == map[active := random] + AsMap(extra)
  {
    var material := Material(active, random, extra).value;
    MaterialIsMapping(active, random, extra);
    MaterialIsNotEmpty(active, random, extra);
    EntriesForLength(material);
    ParsedOfRingData(active, EntriesFor(material).value, other);
    if 1 <= active {
      MaterialIsPositive(active, random, extra);
      EntriesReadBack(material, other);
    }
  }

  /** A ring for version 0 is built without complaint, and is not a valid ring. */
  lemma BuiltButRefused(random: Key, other: char -> Option<nat>)
    ensures Built(0, random, []).Ok?
    ensures Parsed(Built(0, random, []).value, other) == Err(RingInvalid)
  {
    var material := [(0, random)];
    assert material[..0] == [];
    assert FormatInt(0) == Some("0");
    assert EntryFor(0, random).Some?;
    assert EntriesFor([]) == Some([]);
    assert EntriesFor(material).Some?;
    ParseBuilt(0, random, [], other);
  }

  lemma {:induction false} MaterialIff(active: int, random: Key, extra: seq<(int, seq<Byte>)>)
    ensures Material(active, random, extra).Some? <==>
      forall k :: 0 <= k < |extra| ==> 1 <= extra[k].0 && |extra[k].1| == KEK_SIZE
  {
    if extra != [] {
      var n := |extra| - 1;
      MaterialIff(active, random, extra[..n]);
      assert forall k :: 0 <= k < n ==> extra[..n][k] == extra[k];
    }
  }

  /** The builder refuses the extra keys exactly when one has a bad version or size. */
  lemma BuilderRefusesIff(active: int, random: Key, extra: seq<(int, seq<Byte>)>)
    ensures Built(active, random, extra) == Err(RingInvalid) <==>
      exists k :: 0 <= k < |extra| && (extra[k].0 < 1 || |extra[k].1| != KEK_SIZE)
  {
    MaterialIff(active, random, extra);
  }

  // ----- rings that read alike -----

  lemma SameUpdate(keys: map<int, Key>, others: map<int, Key>, version: int, key: Key, other: Key)
    requires version !in keys && version !in others
    ensures keys[version := key] == others[version := other] <==> keys == others && key == other
  {
    if keys[version := key] == others[version := other] {
      assert key == keys[version := key][version] == other;
      assert keys == keys[version := key] - {version} == others[version := other] - {version} == others;
    }
  }

  ghost predicate SameVersions(entries: seq<Entry>, others: seq<Entry>, read: Entry -> Option<(int, Key)>) {
    && |entries| == |others|
    && forall k :: 0 <= k < |entries| ==>
         read(entries[k]).Some? && read(others[k]).Some? && read(entries[k]).value.0 == read(others[k]).value.0
  }

  ghost predicate ReadAlike(entries: seq<Entry>, others: seq<Entry>, read: Entry -> Option<(int, Key)>)
    requires |entries| == |others|
  {
    forall k :: 0 <= k < |entries| ==> read(entries[k]) == read(others[k])
  }

  lemma ReadAlikeSnoc(entries: seq<Entry>, others: seq<Entry>, read: Entry -> Option<(int, Key)>)
    requires |entries| == |others| && entries != []
    ensures
      var n := |entries| - 1;
      ReadAlike(entries, others, read) <==>
        ReadAlike(entries[..n], others[..n], read) && read(entries[n]) == read(others[n])
  {
    var n := |entries| - 1;
    assert forall k :: 0 <= k < n ==> entries[..n][k] == entries[k] && others[..n][k] == others[k];
  }

  lemma {:induction false} SameKeysIff(entries: seq<Entry>, others: seq<Entry>, read: Entry -> Option<(int, Key)>)
    requires SameVersions(entries, others, read)
    requires KeysOf(entries, read).Some? && KeysOf(others, read).Some?
    ensures KeysOf(entries, read) == KeysOf(others, read) <==> ReadAlike(entries, others, read)
  {
    if entries != [] {
      var n := |entries| - 1;
      assert SameVersions(entries[..n], others[..n], read);
      SameKeysIff(entries[..n], others[..n], read);
      ReadAlikeSnoc(entries, others, read);
      var last, other := read(entries[n]).value, read(others[n]).value;
      SameUpdate(KeysOf(entries[..n], read).value, KeysOf(others[..n], read).value, last.0, last.1, other.1);
    }
  }

  /** Good entries whose names read as the same version read alike exactly when their texts agree in the bits used. */
  lemma EntriesReadAlikeIff(e: Entry, f: Entry, other: char -> Option<nat>)
    requires ReadEntry(e, other).Some? && ReadEntry(f, other).Some?
    requires ReadEntry(e, other).value.0 == ReadEntry(f, other).value.0
    ensures PaddedOnce(e.value.text, 10) && PaddedOnce(f.value.text, 10)
    ensures ReadEntry(e, other) == ReadEntry(f, other) <==> AgreeInUse(e.value.text, f.value.text, 10)
  {
    EntryReadIff(e, other);
    EntryReadIff(f, other);
    SameBytesIff(e.value.text, f.value.text, 10);
  }

  ghost predicate TextsAgree(entries: seq<Entry>, others: seq<Entry>)
    requires |entries| == |others|
  {
    forall k :: 0 <= k < |entries| ==>
      && entries[k].value.Text? && others[k].value.Text?
      && PaddedOnce(entries[k].value.text, 10) && PaddedOnce(others[k].value.text, 10)
      && AgreeInUse(entries[k].value.text, others[k].value.text, 10)
  }

  /**
   * Two accepted rings with one active version, whose entries have the same versions in the same
   * order, are read as the same ring if and only if their texts agree but for the unused bits.
   */
  lemma SameRingIff(active: int, entries: seq<Entry>, others: seq<Entry>, other: char -> Option<nat>)
    requires entries != [] && SameVersions(entries, others, Reader(other))
    requires Parsed(RingData(active, entries), other).Ok? && Parsed(RingData(active, others), other).Ok?
    ensures Parsed(RingData(active, entries), other) == Parsed(RingData(active, others), other) <==>
      TextsAgree(entries, others)
  {
    ParsedOfRingData(active, entries, other);
    ParsedOfRingData(active, others, other);
    SameKeysIff(entries, others, Reader(other));
    forall k | 0 <= k < |entries|
      ensures entries[k].value.Text? && others[k].value.Text?
      ensures PaddedOnce(entries[k].value.text, 10) && PaddedOnce(others[k].value.text, 10)
      ensures Reader(other)(entries[k]) == Reader(other)(others[k]) <==>
        AgreeInUse(entries[k].value.text, others[k].value.text, 10)
    {
      assert Reader(other)(entries[k]) == ReadEntry(entries[k], other);
      assert Reader(other)(others[k]) == ReadEntry(others[k], other);
      EntriesReadAlikeIff(entries[k], others[k], other);
    }
  }

  function RingOf(text: string): Json {
    RingData(1, [Entry("1", Text(text))])
  }

  lemma RingOfText(key: Key, text: string, other: char -> Option<nat>)
    requires DecodeBase64(text) == Some(key)
    ensures Parsed(RingOf(text), other) == Ok(Ring(Integer(1), 1, map[1 := key]))
  {
    assert FormatInt(1) == Some("1");
    ParseFormatted(1, other);
    var entries := [Entry("1", Text(text))];
    assert entries[..0] == [];
    assert ReadEntry(entries[0], other) == Some((1, key));
    assert KeysOf(entries[..0], Reader(other)) == Some(map[]);
    ParsedOfRingData(1, entries, other);
  }

  /** Every key has exactly four texts, and rings written with two different ones of them are the same ring. */
  lemma FourTextsOneRing(key: Key, i: nat, j: nat, other: char -> Option<nat>)
    requires i < j < 4
    ensures RingOf(TextWith(key, 10, i)) != RingOf(TextWith(key, 10, j))
    ensures Parsed(RingOf(TextWith(key, 10, i)), other) == Parsed(RingOf(TextWith(key, 10, j)), other)
      == Ok(Ring(Integer(1), 1, map[1 := key]))
    ensures forall text :: DecodeBase64(text) == Some(key) <==> exists m: nat :: m < 4 && text == TextWith(key, 10, m)
  {
    var ti, tj := TextWith(key, 10, i), TextWith(key, 10, j);
    FourTexts(key, 10, ti);
    FourTexts(key, 10, tj);
    RingOfText(key, ti, other);
    RingOfText(key, tj, other);
    if RingOf(ti) == RingOf(tj) { TellsRings(ti, tj); }
    forall text ensures DecodeBase64(text) == Some(key) <==> exists m: nat :: m < 4 && text == TextWith(key, 10, m) {
      FourTexts(key, 10, text);
    }
  }

  lemma TellsRings(s: string, t: string)
    requires RingOf(s) == RingOf(t)
    ensures s == t
  {
    FieldsOfRing(1, [Entry("1", Text(s))]);
    FieldsOfRing(1, [Entry("1", Text(t))]);
    assert [Entry("1", Text(s))][0] == [Entry("1", Text(t))][0];
  }

  // ----- the two errors of the parser -----

  /** Another schema than 1 is told apart, once the data is an object; every other failure is an invalid ring. */
  lemma RingErrorsAre(data: Json, other: char -> Option<nat>)
    ensures Parsed(data, other) == Err(SchemaUnsupported) <==>
      && data.Object?
      && Field(data.entries, "schema_version") != Integer(1) && Field(data.entries, "schema_version") != Bool(true)
      && Field(data.entries, "schema_version") != Float(1.0)
    ensures Parsed(data, other).Err? ==> Parsed(data, other).error in {SchemaUnsupported, RingInvalid}
    ensures Parsed(data, other).Ok? ==> Parsed(data, other).value.schemaVersion == Field(data.entries, "schema_version")
  {
  }

  /** A lookup by hand tells versions that cannot be from versions that are not there. */
  lemma LookupErrorsAre(ring: Ring, version: int)
    ensures Lookup(ring, version) == Err(VersionInvalid) <==> version < 1
    ensures Lookup(ring, version) == Err(VersionUnknown) <==> 1 <= version && version !in ring.keys
    ensures 1 <= version && version in ring.keys ==> Lookup(ring, version) == Ok(ring.keys[version])
  {
  }
}
