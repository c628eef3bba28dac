/** The bounded cache of strictly parsed documents: a plain parser that remembers, least recently used first out. */
module ParsedDocuments {
  import opened JsonValues
  import opened Unicode
  import Strings

  // ---------- keys ----------

  datatype Key = Key(tenantId: string, repositoryId: string, serviceId: string, serviceRoot: string, configFingerprint: string,
                     adapterId: string, adapterVersion: string, irVersion: string, documentPath: string, digest: string)

  predicate Sized(s: string) {
    1 <= |s| <= 2048
  }

  predicate Hex(c: char) {
    '0' <= c <= '9' || 'a' <= c <= 'f' || 'A' <= c <= 'F'
  }

  /** `/^sha256:[a-f0-9]{64}$/i`. */
  predicate IsDigest(s: string) {
    |s| == 71 && (forall i :: 0 <= i < 7 ==> Strings.Lower(s[i]) == "sha256:"[i]) && forall i :: 7 <= i < 71 ==> Hex(s[i])
  }

  predicate IsYaml(path: string) {
    Strings.HasSuffix(path, ".yaml") || Strings.HasSuffix(path, ".yml")
  }

  predicate ValidKey(key: Key) {
    && Sized(key.tenantId) && Sized(key.repositoryId) && Sized(key.serviceId) && Sized(key.serviceRoot)
    && Sized(key.configFingerprint) && Sized(key.adapterId) && Sized(key.adapterVersion) && Sized(key.irVersion)
    && Sized(key.documentPath) && Sized(key.digest)
    && IsDigest(key.digest)
    && (Strings.HasSuffix(key.documentPath, ".json") || IsYaml(key.documentPath))
  }

  /** U+FFFD, which stands for a stray surrogate in UTF-8. */
  const UNKNOWN: char := 0xFFFD as char

  // ---------- plain parsing ----------

  datatype Outcome = Parsed(value: Json) | Failed(error: string)

  /** The strict parsers, the size of a value as JSON text where it has one, and the digest of a path and a text. */
  datatype Host = Host(
    json: Text -> Outcome,
    yaml: Text -> Outcome,
    size: Json -> Option<nat>,
    digest: (string, string) -> string)

  function Direct(host: Host, key: Key, text: Text): Outcome {
    if !ValidKey(key) then Failed("Invalid parsed-document cache key")
    else if IsYaml(key.documentPath) then host.yaml(text)
    else host.json(text)
  }

  predicate Verified(host: Host, key: Key, text: Text) {
    host.digest(key.documentPath, Scalars(text, UNKNOWN)) == key.digest
  }

  /** The digest a key names is that of one encoding only. */
  ghost predicate Collisionless(host: Host, key: Key) {
    forall s, t :: host.digest(key.documentPath, s) == key.digest && host.digest(key.documentPath, t) == key.digest ==> s == t
  }

  /** Such digests exist for every key and text. */
  lemma SomeHostIsCollisionless(key: Key, text: Text)
    ensures exists host :: Collisionless(host, key) && Verified(host, key, text)
  {
    var encoded := Scalars(text, UNKNOWN);
    var digest: (string, string) -> string := (path, s) => if s == encoded then key.digest else key.digest + "0";
    var host := Host(_ => Failed(""), _ => Failed(""), _ => None, digest);
    assert Collisionless(host, key) && Verified(host, key, text);
  }

  // ---------- the cache on values ----------

  datatype Slot = Slot(key: Key, value: Json, bytes: nat)

  /** Slots are in order of use, the least recently used first. */
  datatype Cache = Cache(slots: seq<Slot>, retainedBytes: int, hits: nat, misses: nat, parseFailures: nat, evictions: nat)

  datatype Limits = Limits(maxEntries: int, maxBytes: int)

  predicate ValidLimits(limits: Limits) {
    1 <= limits.maxEntries <= 256 && 1 <= limits.maxBytes <= 64000000
  }

  const EMPTY := Cache([], 0, 0, 0, 0, 0)

  function SlotOf(slots: seq<Slot>, key: Key): (i: nat)
    ensures i <= |slots|
    ensures i < |slots| ==> slots[i].key == key
    ensures forall k :: 0 <= k < i ==> slots[k].key != key
  {
    if slots == [] || slots[0].key == key then 0 else 1 + SlotOf(slots[1..], key)
  }

  function Total(slots: seq<Slot>): nat {
    if slots == [] then 0 else slots[0].bytes + Total(slots[1..])
  }

  predicate Room(slots: seq<Slot>, bytes: nat, limits: Limits) {
    |slots| < limits.maxEntries && Total(slots) + bytes <= limits.maxBytes
  }

  /** How many of the least recently used slots have to go. */
  function Surplus(slots: seq<Slot>, bytes: nat, limits: Limits): (k: nat)
    ensures k <= |slots|
  {
    if slots == [] || Room(slots, bytes, limits) then 0 else 1 + Surplus(slots[1..], bytes, limits)
  }

  lemma {:induction false} SurplusIsShortest(slots: seq<Slot>, bytes: nat, limits: Limits)
    requires ValidLimits(limits) && bytes <= limits.maxBytes
    ensures var k := Surplus(slots, bytes, limits);
      Room(slots[k..], bytes, limits) && forall j :: 0 <= j < k ==> !Room(slots[j..], bytes, limits)
  {
    if slots != [] && !Room(slots, bytes, limits) {
      SurplusIsShortest(slots[1..], bytes, limits);
      var k := Surplus(slots[1..], bytes, limits);
      assert slots[1..][k..] == slots[k + 1..];
      forall j | 0 <= j < k + 1 ensures !Room(slots[j..], bytes, limits) {
        if j > 0 { assert slots[1..][j - 1..] == slots[j..]; } else { assert slots[0..] == slots; }
      }
    } else {
      assert slots[0..] == slots;
    }
  }

  function Used(slots: seq<Slot>, i: nat): seq<Slot>
    requires i < |slots|
  {
    slots[..i] + slots[i + 1..] + [slots[i]]
  }

  function Retain(cache: Cache, limits: Limits, slot: Slot): Cache {
    var k := Surplus(cache.slots, slot.bytes, limits);
    cache.(slots := cache.slots[k..] + [slot],
           retainedBytes := cache.retainedBytes - Total(cache.slots[..k]) + slot.bytes,
           evictions := cache.evictions + k)
  }

  /** A miss: parse, and retain what is verified and small enough. */
  function Afresh(host: Host, limits: Limits, cache: Cache, key: Key, text: Text): (Cache, Outcome) {
    var missed := cache.(misses := cache.misses + 1);
    match if IsYaml(key.documentPath) then host.yaml(text) else host.json(text)
    case Failed(error) => (missed.(parseFailures := missed.parseFailures + 1), Failed(error))
    case Parsed(value) =>
      var size := host.size(value);
      if !Verified(host, key, text) || size.None? || size.value > limits.maxBytes then (missed, Parsed(value))
      else (Retain(missed, limits, Slot(key, value, size.value)), Parsed(value))
  }

  function Answer(host: Host, limits: Limits, cache: Cache, key: Key, text: Text): (Cache, Outcome) {
    if !ValidKey(key) then (cache, Failed("Invalid parsed-document cache key"))
    else
      var i := SlotOf(cache.slots, key);
      if i < |cache.slots| && Verified(host, key, text) then
        (cache.(slots := Used(cache.slots, i), hits := cache.hits + 1), Parsed(cache.slots[i].value))
      else Afresh(host, limits, cache, key, text)
  }

  // ---------- what every run keeps ----------

  datatype Call = ParseCall(key: Key, text: Text) | ClearCall

  function Step(host: Host, limits: Limits, cache: Cache, call: Call): Cache {
    match call
    case ParseCall(key, text) => Answer(host, limits, cache, key, text).0
    case ClearCall => cache.(slots := [], retainedBytes := 0)
  }

  function After(host: Host, limits: Limits, calls: seq<Call>): Cache {
    if calls == [] then EMPTY else Step(host, limits, After(host, limits, calls[..|calls| - 1]), calls[|calls| - 1])
  }

  ghost predicate DistinctSlots(slots: seq<Slot>) {
    forall i, j :: 0 <= i < j < |slots| ==> slots[i].key != slots[j].key
  }

  /** A slot holds what plain parsing gives for a text with the digest its key names. */
  ghost predicate Earned(host: Host, slot: Slot) {
    && ValidKey(slot.key) && host.size(slot.value) == Some(slot.bytes)
    && exists text :: Verified(host, slot.key, text) && Direct(host, slot.key, text) == Parsed(slot.value)
  }

  ghost predicate Valid(host: Host, limits: Limits, cache: Cache) {
    && DistinctSlots(cache.slots)
    && cache.retainedBytes == Total(cache.slots)
    && |cache.slots| <= limits.maxEntries && cache.retainedBytes <= limits.maxBytes
    && forall i :: 0 <= i < |cache.slots| ==> Earned(host, cache.slots[i])
  }

  lemma {:induction false} TotalConcat(a: seq<Slot>, b: seq<Slot>)
    ensures Total(a + b) == Total(a) + Total(b)
  {
    if a == [] {
      assert a + b == b;
    } else {
      assert (a + b)[1..] == a[1..] + b;
      TotalConcat(a[1..], b);
    }
  }

  lemma UsedFacts(slots: seq<Slot>, i: nat)
    requires i < |slots| && DistinctSlots(slots)
    ensures DistinctSlots(Used(slots, i)) && Total(Used(slots, i)) == Total(slots) && |Used(slots, i)| == |slots|
    ensures forall s :: s in Used(slots, i) <==> s in slots
  {
    assert slots == slots[..i] + [slots[i]] + slots[i + 1..];
    TotalConcat(slots[..i] + [slots[i]], slots[i + 1..]);
    TotalConcat(slots[..i], [slots[i]]);
    TotalConcat(slots[..i], slots[i + 1..]);
    TotalConcat(slots[..i] + slots[i + 1..], [slots[i]]);
    var moved := Used(slots, i);
    forall a | 0 <= a < |moved| ensures moved[a] == slots[if a < i then a else if a < |slots| - 1 then a + 1 else i] { }
    forall s | s in slots ensures s in moved {
      var a :| 0 <= a < |slots| && slots[a] == s;
      assert moved[if a < i then a else if a == i then |slots| - 1 else a - 1] == s;
    }
  }

  lemma RetainDistinct(slots: seq<Slot>, k: nat, slot: Slot)
    requires DistinctSlots(slots) && k <= |slots| && forall i :: 0 <= i < |slots| ==> slots[i].key != slot.key
    ensures DistinctSlots(slots[k..] + [slot])
  {
  }

  lemma RetainEarned(host: Host, slots: seq<Slot>, k: nat, slot: Slot)
    requires (forall i :: 0 <= i < |slots| ==> Earned(host, slots[i])) && k <= |slots| && Earned(host, slot)
    ensures forall i :: 0 <= i < |slots[k..] + [slot]| ==> Earned(host, (slots[k..] + [slot])[i])
  {
    hide Earned;
  }

  lemma RetainTotal(slots: seq<Slot>, k: nat, slot: Slot)
    requires k <= |slots|
    ensures Total(slots[k..] + [slot]) == Total(slots) - Total(slots[..k]) + slot.bytes
    ensures Total(slots[k..] + [slot]) == Total(slots[k..]) + slot.bytes
  {
    assert slots == slots[..k] + slots[k..];
    TotalConcat(slots[..k], slots[k..]);
    TotalConcat(slots[k..], [slot]);
  }

  lemma RetainFacts(host: Host, limits: Limits, cache: Cache, slot: Slot)
    requires Valid(host, limits, cache) && ValidLimits(limits) && slot.bytes <= limits.maxBytes
    requires Earned(host, slot) && forall i :: 0 <= i < |cache.slots| ==> cache.slots[i].key != slot.key
    ensures Valid(host, limits, Retain(cache, limits, slot))
  {
    var k := Surplus(cache.slots, slot.bytes, limits);
    hide Earned, Surplus, Total, DistinctSlots;
    SurplusIsShortest(cache.slots, slot.bytes, limits);
    RetainTotal(cache.slots, k, slot);
    RetainDistinct(cache.slots, k, slot);
    RetainEarned(host, cache.slots, k, slot);
  }

  lemma AnswerKeeps(host: Host, limits: Limits, cache: Cache, key: Key, text: Text)
    requires Valid(host, limits, cache) && ValidLimits(limits)
    ensures Valid(host, limits, Answer(host, limits, cache, key, text).0)
  {
    hide Total, SlotOf, Used, Retain, Earned;
    var i := SlotOf(cache.slots, key);
    if ValidKey(key) {
      if i < |cache.slots| && Verified(host, key, text) {
        UsedFacts(cache.slots, i);
        UsedSlots(host, cache.slots, i);
      } else if Direct(host, key, text).Parsed? && Verified(host, key, text) {
        var value := Direct(host, key, text).value;
        if host.size(value).Some? && host.size(value).value <= limits.maxBytes {
          var slot := Slot(key, value, host.size(value).value);
          EarnedNow(host, key, text, slot);
          var missed := cache.(misses := cache.misses + 1);
          RetainFacts(host, limits, missed, slot);
        }
      }
    }
  }

  lemma UsedSlots(host: Host, slots: seq<Slot>, i: nat)
    requires i < |slots| && forall k :: 0 <= k < |slots| ==> Earned(host, slots[k])
    ensures forall k :: 0 <= k < |Used(slots, i)| ==> Earned(host, Used(slots, i)[k])
  {
    hide Earned;
    forall k | 0 <= k < |Used(slots, i)| ensures Used(slots, i)[k] in slots { }
  }

  lemma EarnedNow(host: Host, key: Key, text: Text, slot: Slot)
    requires ValidKey(key) && Verified(host, key, text) && Direct(host, key, text) == Parsed(slot.value) && slot.key == key
    requires host.size(slot.value) == Some(slot.bytes)
    ensures Earned(host, slot)
  {
  }

  /** In every run both limits hold, the byte count is exact, no key repeats and every slot is earned. */
  lemma {:induction false} RunKeeps(host: Host, limits: Limits, calls: seq<Call>)
    requires ValidLimits(limits)
    ensures Valid(host, limits, After(host, limits, calls))
  {
    if calls != [] {
      var before := After(host, limits, calls[..|calls| - 1]);
      RunKeeps(host, limits, calls[..|calls| - 1]);
      hide Valid, Answer;
      match calls[|calls| - 1]
      case ParseCall(key, text) => AnswerKeeps(host, limits, before, key, text);
      case ClearCall => ClearKeeps(host, limits, before);
    } else {
      assert Total([]) == 0;
    }
  }

  lemma ClearKeeps(host: Host, limits: Limits, cache: Cache)
    requires Valid(host, limits, cache)
    ensures Valid(host, limits, cache.(slots := [], retainedBytes := 0))
  {
  }

  // ---------- transparency ----------

  /** A run over well-formed texts only. */
  ghost predicate Legible(calls: seq<Call>) {
    forall i :: 0 <= i < |calls| && calls[i].ParseCall? ==> IsWellFormed(calls[i].text)
  }

  /** Each slot's value is what plain parsing gives for a well-formed text with that digest. */
  ghost predicate EarnedLegibly(host: Host, slot: Slot) {
    exists text :: IsWellFormed(text) && Verified(host, slot.key, text) && Direct(host, slot.key, text) == Parsed(slot.value)
  }

  ghost predicate AllEarnedLegibly(host: Host, slots: seq<Slot>) {
    forall i :: 0 <= i < |slots| ==> EarnedLegibly(host, slots[i])
  }

  lemma UsedLegibly(host: Host, slots: seq<Slot>, i: nat)
    requires AllEarnedLegibly(host, slots) && i < |slots|
    ensures AllEarnedLegibly(host, Used(slots, i))
  {
    hide EarnedLegibly;
    forall k | 0 <= k < |Used(slots, i)| ensures Used(slots, i)[k] in slots { }
  }

  lemma RetainedLegibly(host: Host, limits: Limits, cache: Cache, slot: Slot)
    requires AllEarnedLegibly(host, cache.slots) && EarnedLegibly(host, slot)
    ensures AllEarnedLegibly(host, Retain(cache, limits, slot).slots)
  {
    hide EarnedLegibly, Surplus, Total;
  }

  lemma ParseKeepsLegible(host: Host, limits: Limits, cache: Cache, key: Key, text: Text)
    requires AllEarnedLegibly(host, cache.slots) && IsWellFormed(text)
    ensures AllEarnedLegibly(host, Answer(host, limits, cache, key, text).0.slots)
  {
    hide AllEarnedLegibly, SlotOf, Retain, Used, IsWellFormed, IsYaml, ValidKey, Verified;
    var i, value := SlotOf(cache.slots, key), Direct(host, key, text);
    if ValidKey(key) {
      if i < |cache.slots| && Verified(host, key, text) {
        UsedLegibly(host, cache.slots, i);
      } else if Verified(host, key, text) && value.Parsed? && host.size(value.value).Some? {
        var slot := Slot(key, value.value, host.size(value.value).value);
        EarnedLegiblyNow(host, key, text, slot);
        RetainedLegibly(host, limits, cache.(misses := cache.misses + 1), slot);
      }
    }
  }

  lemma EarnedLegiblyNow(host: Host, key: Key, text: Text, slot: Slot)
    requires IsWellFormed(text) && Verified(host, key, text) && Direct(host, key, text) == Parsed(slot.value) && slot.key == key
    ensures EarnedLegibly(host, slot)
  {
  }

  lemma {:induction false} RunKeepsLegible(host: Host, limits: Limits, calls: seq<Call>)
    requires Legible(calls)
    ensures AllEarnedLegibly(host, After(host, limits, calls).slots)
  {
    if calls != [] {
      var last := calls[|calls| - 1];
      RunKeepsLegible(host, limits, calls[..|calls| - 1]);
      hide Answer, EarnedLegibly, IsWellFormed;
      if last.ParseCall? {
        ParseKeepsLegible(host, limits, After(host, limits, calls[..|calls| - 1]), last.key, last.text);
      }
    }
  }

  /** After any run over well-formed texts, a well-formed text is answered as plain parsing would answer it. */
  lemma Transparent(host: Host, limits: Limits, calls: seq<Call>, key: Key, text: Text)
    requires Collisionless(host, key) && Legible(calls) && IsWellFormed(text)
    ensures Answer(host, limits, After(host, limits, calls), key, text).1 == Direct(host, key, text)
  {
    var cache := After(host, limits, calls);
    RunKeepsLegible(host, limits, calls);
    var i := SlotOf(cache.slots, key);
    if ValidKey(key) && i < |cache.slots| && Verified(host, key, text) {
      assert EarnedLegibly(host, cache.slots[i]);
      var first :| IsWellFormed(first) && Verified(host, key, first) && Direct(host, key, first) == Parsed(cache.slots[i].value);
      WellFormedRoundTrip(first, UNKNOWN);
      WellFormedRoundTrip(text, UNKNOWN);
    }
  }

  /** A call with this text leaves its value in the cache. */
  predicate Retained(host: Host, limits: Limits, key: Key, text: Text) {
    && ValidKey(key) && Verified(host, key, text) && Direct(host, key, text).Parsed?
    && host.size(Direct(host, key, text).value).Some?
    && host.size(Direct(host, key, text).value).value <= limits.maxBytes
  }

  /** The parser tells no retained text with the same encoding from this one. */
  ghost predicate ParsedAlike(host: Host, limits: Limits, key: Key, text: Text) {
    forall other :: Retained(host, limits, key, other) && Scalars(other, UNKNOWN) == Scalars(text, UNKNOWN) ==>
      Direct(host, key, other) == Direct(host, key, text)
  }

  ghost predicate AlwaysTransparent(host: Host, limits: Limits, key: Key, text: Text) {
    forall calls :: Answer(host, limits, After(host, limits, calls), key, text).1 == Direct(host, key, text)
  }

  lemma OneCall(host: Host, limits: Limits, key: Key, text: Text)
    ensures After(host, limits, [ParseCall(key, text)]) == Answer(host, limits, EMPTY, key, text).0
  {
    hide Answer;
    var first := [ParseCall(key, text)];
    assert first[..0] == [];
    assert After(host, limits, []) == EMPTY;
    assert After(host, limits, first) == Step(host, limits, EMPTY, first[0]);
  }

  /** A retained text is answered for every other one with the same encoding. */
  lemma AnsweredForOther(host: Host, limits: Limits, key: Key, other: Text, text: Text)
    requires ValidLimits(limits) && Retained(host, limits, key, other) && Scalars(other, UNKNOWN) == Scalars(text, UNKNOWN)
    ensures Answer(host, limits, After(host, limits, [ParseCall(key, other)]), key, text).1 == Direct(host, key, other)
  {
    hide ValidKey, Scalars;
    OneCall(host, limits, key, other);
  }

  lemma {:induction false} SlotFits(slots: seq<Slot>, i: nat)
    requires i < |slots|
    ensures slots[i].bytes <= Total(slots)
  {
    if i > 0 { SlotFits(slots[1..], i - 1); }
  }

  /**
   * Exactly: after every run, over whatever texts, the answer is that of plain parsing, if and only if the parser does
   * not tell the text from a retained one with the same encoding.
   */
  lemma TransparentExactly(host: Host, limits: Limits, key: Key, text: Text)
    requires Collisionless(host, key) && ValidLimits(limits) && ValidKey(key) && Verified(host, key, text)
    ensures AlwaysTransparent(host, limits, key, text) <==> ParsedAlike(host, limits, key, text)
  {
    hide ValidKey;
    if AlwaysTransparent(host, limits, key, text) {
      forall other | Retained(host, limits, key, other) && Scalars(other, UNKNOWN) == Scalars(text, UNKNOWN)
        ensures Direct(host, key, other) == Direct(host, key, text)
      {
        AnsweredForOther(host, limits, key, other, text);
      }
    }
    if ParsedAlike(host, limits, key, text) {
      forall calls ensures Answer(host, limits, After(host, limits, calls), key, text).1 == Direct(host, key, text) {
        AnsweredAlike(host, limits, calls, key, text);
      }
    }
  }

  lemma AnsweredAlike(host: Host, limits: Limits, calls: seq<Call>, key: Key, text: Text)
    requires Collisionless(host, key) && ValidLimits(limits) && ValidKey(key) && Verified(host, key, text)
    requires ParsedAlike(host, limits, key, text)
    ensures Answer(host, limits, After(host, limits, calls), key, text).1 == Direct(host, key, text)
  {
    var cache := After(host, limits, calls);
    RunKeeps(host, limits, calls);
    var i := SlotOf(cache.slots, key);
    hide ValidKey, After, Scalars;
    if i < |cache.slots| {
      assert Earned(host, cache.slots[i]);
      SlotFits(cache.slots, i);
      var other :| Verified(host, key, other) && Direct(host, key, other) == Parsed(cache.slots[i].value);
      assert Retained(host, limits, key, other);
    }
  }

  /**
   * So it fails for a text with a stray surrogate that the parser tells from the text with the surrogate replaced: the
   * two have the same digest, and once the other is cached its value is returned.
   */
  lemma IllFormedIsConfused(host: Host, limits: Limits, key: Key, text: Text)
    requires !IsWellFormed(text) && ValidLimits(limits) && ValidKey(key) && Verified(host, key, text)
    ensures var twin := Units(Scalars(text, UNKNOWN));
      && twin != text && IsWellFormed(twin) && Verified(host, key, twin)
      && (Retained(host, limits, key, twin) && Direct(host, key, twin) != Direct(host, key, text) ==>
            && Answer(host, limits, After(host, limits, [ParseCall(key, twin)]), key, text).1 != Direct(host, key, text)
            && !AlwaysTransparent(host, limits, key, text))
  {
    var twin := Units(Scalars(text, UNKNOWN));
    WellFormedRoundTrip(text, UNKNOWN);
    UnitsWellFormed(Scalars(text, UNKNOWN), UNKNOWN);
    hide IsWellFormed, ValidKey;
    if Retained(host, limits, key, twin) { AnsweredForOther(host, limits, key, twin, text); }
  }

  // ---------- recency ----------

  /** The last call that used the key with a verified text; -1 if there is none. */
  function LastUse(host: Host, calls: seq<Call>, key: Key): (n: int)
    ensures -1 <= n < |calls|
  {
    if calls == [] then -1
    else
      var last := |calls| - 1;
      if calls[last].ParseCall? && calls[last].key == key && Verified(host, key, calls[last].text) then last
      else LastUse(host, calls[..last], key)
  }

  ghost predicate ByRecency(host: Host, calls: seq<Call>, slots: seq<Slot>) {
    forall i, j :: 0 <= i < j < |slots| ==> LastUse(host, calls, slots[i].key) < LastUse(host, calls, slots[j].key)
  }

  lemma MovedLast(host: Host, before: seq<Call>, calls: seq<Call>, kept: seq<Slot>, slot: Slot)
    requires calls != [] && before == calls[..|calls| - 1] && ByRecency(host, before, kept)
    requires calls[|calls| - 1].ParseCall? && calls[|calls| - 1].key == slot.key && Verified(host, slot.key, calls[|calls| - 1].text)
    requires forall i :: 0 <= i < |kept| ==> kept[i].key != slot.key
    ensures ByRecency(host, calls, kept + [slot])
  {
    hide Verified;
    forall i | 0 <= i < |kept| ensures LastUse(host, calls, kept[i].key) == LastUse(host, before, kept[i].key) { }
  }

  lemma StillByRecency(host: Host, before: seq<Call>, calls: seq<Call>, slots: seq<Slot>)
    requires calls != [] && before == calls[..|calls| - 1] && ByRecency(host, before, slots)
    requires forall i :: 0 <= i < |slots| ==>
      LastUse(host, calls, slots[i].key) == LastUse(host, before, slots[i].key)
    ensures ByRecency(host, calls, slots)
  {
  }

  /** The order of the slots is the order of last use, so what an insertion evicts is what was used longest ago. */
  lemma {:induction false} SlotsAreByRecency(host: Host, limits: Limits, calls: seq<Call>)
    requires ValidLimits(limits)
    ensures ByRecency(host, calls, After(host, limits, calls).slots)
  {
    if calls != [] {
      var before, call := calls[..|calls| - 1], calls[|calls| - 1];
      var cache := After(host, limits, before);
      SlotsAreByRecency(host, limits, before);
      RunKeeps(host, limits, before);
      if call.ParseCall? { ParseIsByRecency(host, limits, cache, before, calls); }
    }
  }

  lemma OtherSlots(host: Host, calls: seq<Call>, slots: seq<Slot>, i: nat)
    requires ByRecency(host, calls, slots) && DistinctSlots(slots) && i < |slots|
    ensures var kept := slots[..i] + slots[i + 1..];
      ByRecency(host, calls, kept) && forall k :: 0 <= k < |kept| ==> kept[k].key != slots[i].key
  {
    hide LastUse;
    var kept := slots[..i] + slots[i + 1..];
    forall k | 0 <= k < |kept| ensures kept[k] == slots[if k < i then k else k + 1] { }
  }

  lemma RemainingSlots(host: Host, calls: seq<Call>, slots: seq<Slot>, k: nat, key: Key)
    requires ByRecency(host, calls, slots) && k <= |slots| && forall i :: 0 <= i < |slots| ==> slots[i].key != key
    ensures ByRecency(host, calls, slots[k..]) && forall i :: 0 <= i < |slots[k..]| ==> slots[k..][i].key != key
  {
    hide LastUse;
  }

  /** A call that leaves the slots alone did not use any of them. */
  lemma NotUsed(host: Host, before: seq<Call>, calls: seq<Call>, slots: seq<Slot>)
    requires calls != [] && before == calls[..|calls| - 1] && calls[|calls| - 1].ParseCall? && ByRecency(host, before, slots)
    requires var call := calls[|calls| - 1];
      Verified(host, call.key, call.text) ==> forall i :: 0 <= i < |slots| ==> slots[i].key != call.key
    ensures ByRecency(host, calls, slots)
  {
    hide Verified;
    forall i | 0 <= i < |slots| ensures LastUse(host, calls, slots[i].key) == LastUse(host, before, slots[i].key) { }
    StillByRecency(host, before, calls, slots);
  }

  lemma ParseIsByRecency(host: Host, limits: Limits, cache: Cache, before: seq<Call>, calls: seq<Call>)
    requires calls != [] && before == calls[..|calls| - 1] && calls[|calls| - 1].ParseCall?
    requires ByRecency(host, before, cache.slots) && DistinctSlots(cache.slots)
    requires forall i :: 0 <= i < |cache.slots| ==> ValidKey(cache.slots[i].key)
    ensures ByRecency(host, calls, Answer(host, limits, cache, calls[|calls| - 1].key, calls[|calls| - 1].text).0.slots)
  {
    var key, text := calls[|calls| - 1].key, calls[|calls| - 1].text;
    var i := SlotOf(cache.slots, key);
    var after := Answer(host, limits, cache, key, text).0.slots;
    hide Verified, ValidKey, Surplus, Total, ByRecency, DistinctSlots, LastUse, IsYaml;
    if ValidKey(key) && i < |cache.slots| && Verified(host, key, text) {
      OtherSlots(host, before, cache.slots, i);
      MovedLast(host, before, calls, cache.slots[..i] + cache.slots[i + 1..], cache.slots[i]);
    } else if after == cache.slots {
      NotUsed(host, before, calls, cache.slots);
    } else {
      MissByRecency(host, limits, cache, before, calls, key, text);
    }
  }

  lemma MissByRecency(host: Host, limits: Limits, cache: Cache, before: seq<Call>, calls: seq<Call>, key: Key, text: Text)
    requires calls != [] && before == calls[..|calls| - 1] && calls[|calls| - 1] == ParseCall(key, text)
    requires ByRecency(host, before, cache.slots) && Afresh(host, limits, cache, key, text).0.slots != cache.slots
    requires Verified(host, key, text) ==> forall i :: 0 <= i < |cache.slots| ==> cache.slots[i].key != key
    ensures ByRecency(host, calls, Afresh(host, limits, cache, key, text).0.slots)
  {
    var value := if IsYaml(key.documentPath) then host.yaml(text) else host.json(text);
    hide Verified, Surplus, Total, ByRecency, LastUse, IsYaml;
    var slot := Slot(key, value.value, host.size(value.value).value);
    var k := Surplus(cache.slots, slot.bytes, limits);
    RemainingSlots(host, before, cache.slots, k, key);
    MovedLast(host, before, calls, cache.slots[k..], slot);
  }

  // ---------- the cache as an object ----------

  class ParsedDocumentCache {
    const host: Host
    const limits: Limits
    var values: seq<Slot>
    var retainedBytes: int
    var hits: nat
    var misses: nat
    var parseFailures: nat
    var evictions: nat

    constructor (host: Host, limits: Limits)
      requires ValidLimits(limits)
      ensures Now() == EMPTY && this.host == host && this.limits == limits && Valid(host, limits, Now())
    {
      this.host, this.limits := host, limits;
      values, retainedBytes, hits, misses, parseFailures, evictions := [], 0, 0, 0, 0, 0;
    }

    function Now(): Cache
      reads this
    {
      Cache(values, retainedBytes, hits, misses, parseFailures, evictions)
    }

    method Clear()
      modifies this
      ensures Now() == Step(host, limits, old(Now()), ClearCall)
    {
      values := [];
      retainedBytes := 0;
    }

    /** Drops slots from the front until the new one fits; the map never runs empty first. */
    method Evict(bytes: nat)
      requires ValidLimits(limits) && bytes <= limits.maxBytes && retainedBytes == Total(values)
      modifies `values, `retainedBytes, `evictions
      ensures var k := Surplus(old(values), bytes, limits);
        && values == old(values)[k..] && evictions == old(evictions) + k
        && retainedBytes == old(retainedBytes) - Total(old(values)[..k]) == Total(values)
      ensures Room(values, bytes, limits)
    {
      ghost var all, k := values, 0;
      assert all[0..] == all && all[..0] == [];
      while |values| >= limits.maxEntries || retainedBytes + bytes > limits.maxBytes
        invariant 0 <= k <= |all| && values == all[k..] && retainedBytes == Total(values)
        invariant Surplus(all, bytes, limits) == k + Surplus(values, bytes, limits)
        invariant evictions == old(evictions) + k && Total(all) == Total(all[..k]) + Total(values)
        decreases |values|
      {
        assert values != [];
        retainedBytes := retainedBytes - values[0].bytes;
        evictions := evictions + 1;
        assert all[..k + 1] == all[..k] + [all[k]];
        TotalConcat(all[..k], [all[k]]);
        values := values[1..];
        k := k + 1;
      }
    }

    method Insert(slot: Slot)
      requires ValidLimits(limits) && slot.bytes <= limits.maxBytes && retainedBytes == Total(values)
      modifies `values, `retainedBytes, `evictions
      ensures Now() == Retain(old(Now()), limits, slot)
    {
      Evict(slot.bytes);
      values := values + [slot];
      retainedBytes := retainedBytes + slot.bytes;
    }

    method Touch(i: nat)
      requires i < |values|
      modifies `values, `hits
      ensures values == Used(old(values), i) && hits == old(hits) + 1
    {
      var slot := values[i];
      values := values[..i] + values[i + 1..];
      values := values + [slot];
      hits := hits + 1;
    }

    method ParseAfresh(key: Key, text: Text) returns (outcome: Outcome)
      requires ValidLimits(limits) && retainedBytes == Total(values)
      modifies this
      ensures (Now(), outcome) == Afresh(host, limits, old(Now()), key, text)
    {
      hide Verified, Retain, IsYaml, Total;
      misses := misses + 1;
      outcome := if IsYaml(key.documentPath) then host.yaml(text) else host.json(text);
      if outcome.Failed? {
        parseFailures := parseFailures + 1;
        return;
      }
      if !Verified(host, key, text) { return; }
      var size := host.size(outcome.value);
      if size.None? || size.value > limits.maxBytes { return; }
      Insert(Slot(key, outcome.value, size.value));
    }

    method Parse(key: Key, text: Text) returns (outcome: Outcome)
      requires Valid(host, limits, Now()) && ValidLimits(limits)
      modifies this
      ensures Valid(host, limits, Now())
      ensures (Now(), outcome) == Answer(host, limits, old(Now()), key, text)
    {
      AnswerKeeps(host, limits, Now(), key, text);
      BytesAreTotal(host, limits, Now());
      hide Valid, ValidKey, Verified, Afresh, Used, Total;
      if !ValidKey(key) { return Failed("Invalid parsed-document cache key"); }
      var cached := SlotOf(values, key);
      if cached < |values| && Verified(host, key, text) {
        outcome := Parsed(values[cached].value);
        Touch(cached);
      } else {
        outcome := ParseAfresh(key, text);
      }
    }
  }

  lemma BytesAreTotal(host: Host, limits: Limits, cache: Cache)
    requires Valid(host, limits, cache)
    ensures cache.retainedBytes == Total(cache.slots)
  {
  }
}
