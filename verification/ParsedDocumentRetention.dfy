/** What the cache of parsed documents keeps, what it lets go, and what it counts. */
module ParsedDocumentRetention {
  import opened JsonValues
  import opened Unicode
  import opened ParsedDocuments
  import Strings

  // ---------- keys and parsers ----------

  predicate EndsWith(path: string, suffix: string) {
    |suffix| <= |path| && path[|path| - |suffix|..] == suffix
  }

  predicate Bounded(text: string) {
    text != "" && |text| <= 2048
  }

  /** Ten texts of bounded size, a SHA-256 digest, and a path that names a JSON or a YAML file. */
  lemma ValidKeyExactly(key: Key)
    ensures ValidKey(key) <==>
      && Bounded(key.tenantId) && Bounded(key.repositoryId) && Bounded(key.serviceId) && Bounded(key.serviceRoot)
      && Bounded(key.configFingerprint) && Bounded(key.adapterId) && Bounded(key.adapterVersion) && Bounded(key.irVersion)
      && Bounded(key.documentPath) && Bounded(key.digest)
      && |key.digest| == 71
      && (forall i :: 0 <= i < 7 ==> Strings.Lower(key.digest[i]) == "sha256:"[i])
      && (forall i :: 7 <= i < 71 ==>
            var c := key.digest[i]; '0' <= c <= '9' || 'a' <= c <= 'f' || 'A' <= c <= 'F')
      && (EndsWith(key.documentPath, ".json") || EndsWith(key.documentPath, ".yaml") || EndsWith(key.documentPath, ".yml"))
  {
    hide Strings.Lower;
  }

  /** The ending of the path decides which parser reads the text. */
  lemma DirectByEnding(host: Host, key: Key, text: Text)
    ensures !ValidKey(key) ==> Direct(host, key, text) == Failed("Invalid parsed-document cache key")
    ensures ValidKey(key) && EndsWith(key.documentPath, ".json") ==> Direct(host, key, text) == host.json(text)
    ensures ValidKey(key) && (EndsWith(key.documentPath, ".yaml") || EndsWith(key.documentPath, ".yml")) ==>
      Direct(host, key, text) == host.yaml(text)
  {
    OneEnding(key.documentPath);
    ValidKeyExactly(key);
    hide ValidKey, EndsWith;
  }

  lemma OneEnding(path: string)
    ensures IsYaml(path) <==> EndsWith(path, ".yaml") || EndsWith(path, ".yml")
    ensures EndsWith(path, ".json") ==> !EndsWith(path, ".yaml") && !EndsWith(path, ".yml")
  {
    LastCharacter(path, ".json");
    LastCharacter(path, ".yaml");
    LastCharacter(path, ".yml");
  }

  lemma LastCharacter(path: string, suffix: string)
    ensures EndsWith(path, suffix) && suffix != "" ==> path != "" && path[|path| - 1] == suffix[|suffix| - 1]
  {
    if EndsWith(path, suffix) && suffix != "" { assert path[|path| - |suffix|..][|suffix| - 1] == suffix[|suffix| - 1]; }
  }

  // ---------- one call ----------

  ghost predicate Holds(slots: seq<Slot>, key: Key) {
    exists i :: 0 <= i < |slots| && slots[i].key == key
  }

  /** Kept by the call: the text has the digest the key names, it parses, and its value as JSON text is small enough. */
  ghost predicate Keepable(host: Host, limits: Limits, key: Key, text: Text) {
    && host.digest(key.documentPath, Scalars(text, UNKNOWN)) == key.digest
    && Direct(host, key, text).Parsed?
    && host.size(Direct(host, key, text).value).Some?
    && host.size(Direct(host, key, text).value).value <= limits.maxBytes
  }

  /** The least recently used slots are gone, just as many as make room for one more slot of this size. */
  ghost predicate MadeRoom(limits: Limits, before: seq<Slot>, after: seq<Slot>, bytes: nat, gone: nat) {
    && gone <= |before| && after == before[gone..]
    && |after| + 1 <= limits.maxEntries && Total(after) + bytes <= limits.maxBytes
    && (gone > 0 ==> |after| + 2 > limits.maxEntries || Total(before[gone - 1..]) + bytes > limits.maxBytes)
  }

  lemma SurplusMakesRoom(limits: Limits, slots: seq<Slot>, bytes: nat)
    requires ValidLimits(limits) && bytes <= limits.maxBytes
    ensures var k := Surplus(slots, bytes, limits); MadeRoom(limits, slots, slots[k..], bytes, k)
  {
    hide Surplus;
    var k := Surplus(slots, bytes, limits);
    SurplusIsShortest(slots, bytes, limits);
    if k > 0 { assert !Room(slots[k - 1..], bytes, limits); }
  }

  /** The slot of the key answers, and moves to the end. */
  ghost predicate Touched(before: seq<Slot>, after: seq<Slot>, i: int, key: Key, outcome: Outcome) {
    && 0 <= i < |before| && before[i].key == key && outcome == Parsed(before[i].value)
    && after == before[..i] + before[i + 1..] + [before[i]]
  }

  /**
   * A call is a hit exactly when its key is held and its text has the digest the key names: then the held value is
   * answered, its slot becomes the last one, and nothing else changes.
   */
  lemma HitExactly(host: Host, limits: Limits, cache: Cache, key: Key, text: Text)
    requires ValidKey(key)
    ensures var (after, outcome) := Answer(host, limits, cache, key, text);
      var hit := Holds(cache.slots, key) && host.digest(key.documentPath, Scalars(text, UNKNOWN)) == key.digest;
      && after.hits == cache.hits + (if hit then 1 else 0) && after.misses == cache.misses + (if hit then 0 else 1)
      && (hit ==>
            && after.parseFailures == cache.parseFailures && after.evictions == cache.evictions
            && exists i :: Touched(cache.slots, after.slots, i, key, outcome))
      && (!hit ==> outcome == Direct(host, key, text))
  {
    hide ValidKey, Retain, IsYaml;
    var i := SlotOf(cache.slots, key);
    var (after, outcome) := Answer(host, limits, cache, key, text);
    if i < |cache.slots| {
      assert cache.slots[i].key == key;
      if Verified(host, key, text) { assert Touched(cache.slots, after.slots, i, key, outcome); }
    }
    if !(i < |cache.slots| && Verified(host, key, text)) {
      assert Answer(host, limits, cache, key, text) == Afresh(host, limits, cache, key, text);
      RetainCounts(cache.(misses := cache.misses + 1), limits);
    }
  }

  lemma RetainCounts(cache: Cache, limits: Limits)
    ensures forall slot :: Retain(cache, limits, slot).hits == cache.hits && Retain(cache, limits, slot).misses == cache.misses
  {
  }

  /** After a miss, exactly the keepable value is held, in the last slot, and exactly the surplus is evicted. */
  lemma MissExactly(host: Host, limits: Limits, cache: Cache, key: Key, text: Text)
    requires ValidKey(key) && ValidLimits(limits)
    requires !(Holds(cache.slots, key) && host.digest(key.documentPath, Scalars(text, UNKNOWN)) == key.digest)
    ensures var after := Answer(host, limits, cache, key, text).0;
      && after.parseFailures == cache.parseFailures + (if Direct(host, key, text).Failed? then 1 else 0)
      && (Keepable(host, limits, key, text) ==>
            var value := Direct(host, key, text).value;
            var bytes := host.size(value).value;
            && after.slots != [] && after.slots[|after.slots| - 1] == Slot(key, value, bytes)
            && after.evictions >= cache.evictions
            && MadeRoom(limits, cache.slots, after.slots[..|after.slots| - 1], bytes, after.evictions - cache.evictions))
      && (!Keepable(host, limits, key, text) ==> after.slots == cache.slots && after.evictions == cache.evictions)
  {
    hide ValidKey, IsYaml, Surplus, MadeRoom, Total;
    var i := SlotOf(cache.slots, key);
    if i < |cache.slots| { assert cache.slots[i].key == key; }
    if Keepable(host, limits, key, text) {
      var value := Direct(host, key, text).value;
      SurplusMakesRoom(limits, cache.slots, host.size(value).value);
    }
  }

  /** Parsing the same keepable text again is a hit, with the same answer and the same slots. */
  lemma RepeatIsHit(host: Host, limits: Limits, cache: Cache, key: Key, text: Text)
    requires Valid(host, limits, cache) && ValidLimits(limits) && ValidKey(key) && Keepable(host, limits, key, text)
    ensures var (once, first) := Answer(host, limits, cache, key, text);
      var (twice, second) := Answer(host, limits, once, key, text);
      && twice.hits == once.hits + 1 && twice.misses == once.misses && twice.evictions == once.evictions
      && second == first && twice.slots == once.slots
  {
    hide ValidKey, Answer, MadeRoom, Direct, Total;
    var (once, first) := Answer(host, limits, cache, key, text);
    var (twice, second) := Answer(host, limits, once, key, text);
    HitExactly(host, limits, cache, key, text);
    HitExactly(host, limits, once, key, text);
    AnswerKeeps(host, limits, cache, key, text);
    if Holds(cache.slots, key) {
      var i :| Touched(cache.slots, once.slots, i, key, first);
    } else {
      MissExactly(host, limits, cache, key, text);
    }
    var last := |once.slots| - 1;
    assert once.slots[last].key == key && first == Parsed(once.slots[last].value);
    var j :| Touched(once.slots, twice.slots, j, key, second);
    assert j == last;
  }
}
