/** The debug event ring: bounded, newest first, repeated events coalesced. */
module DebugEvents {
  import opened Text

  const MAX_EVENTS := 100
  const MAX_MESSAGE := 2000

  /** `truncate_event_message` */
  function Truncated(message: string): string {
    if |message| <= MAX_MESSAGE then message
    else message[..MAX_MESSAGE] + "... [truncated " + Dec(|message| - MAX_MESSAGE) + " chars]"
  }

  /** What identifies an event: its message only up to truncation. */
  datatype Key = Key(kind: string, resource: string, message: string)

  datatype Entry = Entry(key: Key, first: int, last: int, count: nat)

  function KeyOf(kind: string, resource: string, message: string): Key {
    Key(kind, resource, Truncated(message))
  }

  // ---- the ring ----

  /** The index of the entry of `key`, or the length of the ring. */
  function IndexOf(ring: seq<Entry>, key: Key): (i: nat)
    ensures i <= |ring|
    ensures i < |ring| ==> ring[i].key == key
    ensures forall j | 0 <= j < i :: ring[j].key != key
  {
    if ring == [] then 0
    else if ring[0].key == key then 0
    else 1 + IndexOf(ring[1..], key)
  }

  function Bounded(ring: seq<Entry>): seq<Entry> {
    if |ring| <= MAX_EVENTS then ring else ring[..MAX_EVENTS]
  }

  /** One `record_event`: a known event moves to the front and counts up, a new one
      enters at the front and may push the oldest one out. */
  function Recorded(ring: seq<Entry>, key: Key, now: int): seq<Entry> {
    var i := IndexOf(ring, key);
    if i < |ring| then [ring[i].(last := now, count := ring[i].count + 1)] + ring[..i] + ring[i + 1..]
    else Bounded([Entry(key, now, now, 1)] + ring)
  }

  class DebugStateStore {
    var events: seq<Entry>

    constructor ()
      ensures events == []
    {
      events := [];
    }

    method RecordEvent(kind: string, resource: string, message: string, now: int)
      modifies this
      ensures events == Recorded(old(events), KeyOf(kind, resource, message), now)
    {
      var key := KeyOf(kind, resource, message);
      for i := 0 to |events|
        invariant events == old(events)
        invariant forall j | 0 <= j < i :: events[j].key != key
      {
        if events[i].key == key {
          assert IndexOf(events, key) == i;
          var existing := events[i];
          events := events[..i] + events[i + 1..];
          existing := existing.(last := now, count := existing.count + 1);
          events := [existing] + events;
          return;
        }
      }
      assert IndexOf(events, key) == |events|;
      events := Bounded([Entry(key, now, now, 1)] + events);
    }
  }

  // ---- the history it summarises ----

  /** An occurrence of an event. */
  datatype Hit = Hit(key: Key, now: int)

  function RingAfter(history: seq<Hit>): seq<Entry> {
    if history == [] then []
    else Recorded(RingAfter(history[..|history| - 1]), history[|history| - 1].key, history[|history| - 1].now)
  }

  function Without(keys: seq<Key>, key: Key): seq<Key> {
    if keys == [] then []
    else if keys[0] == key then Without(keys[1..], key)
    else [keys[0]] + Without(keys[1..], key)
  }

  /** The distinct keys of a history, the most recently seen first. */
  function Recent(history: seq<Hit>): seq<Key> {
    if history == [] then []
    else [history[|history| - 1].key] + Without(Recent(history[..|history| - 1]), history[|history| - 1].key)
  }

  function Keys(ring: seq<Entry>): seq<Key> {
    seq(|ring|, i requires 0 <= i < |ring| => ring[i].key)
  }

  predicate NoRepeats(keys: seq<Key>) {
    forall i, j | 0 <= i < j < |keys| :: keys[i] != keys[j]
  }

  function Front(keys: seq<Key>): seq<Key> {
    if |keys| <= MAX_EVENTS then keys else keys[..MAX_EVENTS]
  }

  lemma {:induction false} WithoutIff(keys: seq<Key>, key: Key, k: Key)
    ensures k in Without(keys, key) <==> k in keys && k != key
  {
    if keys != [] {
      WithoutIff(keys[1..], key, k);
      assert keys == [keys[0]] + keys[1..];
    }
  }

  lemma {:induction false} WithoutAbsent(keys: seq<Key>, key: Key)
    requires key !in keys
    ensures Without(keys, key) == keys
  {
    if keys != [] {
      assert keys[0] in keys && forall k | k in keys[1..] :: k in keys;
      WithoutAbsent(keys[1..], key);
    }
  }

  /** Removing a key that occurs once, at `i`. */
  lemma {:induction false} WithoutAt(keys: seq<Key>, key: Key, i: nat)
    requires NoRepeats(keys) && i < |keys| && keys[i] == key
    ensures Without(keys, key) == keys[..i] + keys[i + 1..]
  {
    if i == 0 {
      assert key !in keys[1..];
      WithoutAbsent(keys[1..], key);
    } else {
      WithoutAt(keys[1..], key, i - 1);
      assert keys[..i] + keys[i + 1..] == [keys[0]] + (keys[1..][..i - 1] + keys[1..][i..]);
    }
  }

  lemma {:induction false} RecentDistinct(history: seq<Hit>)
    ensures NoRepeats(Recent(history))
    ensures forall k :: k in Recent(history) <==> exists i | 0 <= i < |history| :: history[i].key == k
  {
    if history != [] {
      var front, last := history[..|history| - 1], history[|history| - 1];
      RecentDistinct(front);
      WithoutDistinct(Recent(front), last.key);
      forall k ensures k in Recent(history) <==> exists i | 0 <= i < |history| :: history[i].key == k {
        WithoutIff(Recent(front), last.key, k);
        if i :| 0 <= i < |front| && front[i].key == k {
          assert history[i].key == k;
        }
        if i :| 0 <= i < |history| && history[i].key == k {
          assert i < |front| ==> front[i].key == k;
        }
      }
    }
  }

  lemma WithoutDistinct(keys: seq<Key>, key: Key)
    requires NoRepeats(keys)
    ensures NoRepeats(Without(keys, key)) && key !in Without(keys, key)
  {
    WithoutIff(keys, key, key);
    if i: nat :| i < |keys| && keys[i] == key {
      WithoutAt(keys, key, i);
    } else {
      WithoutAbsent(keys, key);
    }
  }

  /** Putting a key first that is among the first 100. */
  lemma FrontOfNear(keys: seq<Key>, key: Key, i: nat)
    requires NoRepeats(keys) && i < |keys| && keys[i] == key && i < MAX_EVENTS < |keys|
    ensures Front([key] + Without(keys, key)) == Front([key] + Without(Front(keys), key))
  {
    hide Without;
    WithoutAt(keys, key, i);
    WithoutAt(keys[..MAX_EVENTS], key, i);
    assert ([key] + Without(keys, key))[..MAX_EVENTS] == [key] + Without(Front(keys), key);
  }

  /** Putting a key first that is not. */
  lemma FrontOfFar(keys: seq<Key>, key: Key)
    requires NoRepeats(keys) && MAX_EVENTS < |keys| && key !in keys[..MAX_EVENTS]
    ensures Front([key] + Without(keys, key)) == Front([key] + Without(Front(keys), key))
  {
    hide Without;
    WithoutAbsent(keys[..MAX_EVENTS], key);
    forall x: nat | x < MAX_EVENTS ensures keys[x] != key {
      assert keys[x] == keys[..MAX_EVENTS][x] && keys[x] in keys[..MAX_EVENTS];
    }
    if i: nat :| i < |keys| && keys[i] == key {
      WithoutAt(keys, key, i);
    } else {
      WithoutAbsent(keys, key);
    }
    assert ([key] + Without(keys, key))[..MAX_EVENTS] == ([key] + Front(keys))[..MAX_EVENTS];
  }

  /** Dropping a key commutes with keeping the front, once the key is put first. */
  lemma FrontOfMoved(keys: seq<Key>, key: Key)
    requires NoRepeats(keys)
    ensures Front([key] + Without(keys, key)) == Front([key] + Without(Front(keys), key))
  {
    hide Without, NoRepeats;
    if |keys| > MAX_EVENTS {
      if key in keys[..MAX_EVENTS] {
        var i: nat :| i < MAX_EVENTS && keys[..MAX_EVENTS][i] == key;
        FrontOfNear(keys, key, i);
      } else {
        FrontOfFar(keys, key);
      }
    }
  }

  /** What recording does to the keys. */
  lemma RecordedKeys(ring: seq<Entry>, key: Key, now: int)
    requires NoRepeats(Keys(ring)) && |ring| <= MAX_EVENTS
    ensures Keys(Recorded(ring, key, now)) == Front([key] + Without(Keys(ring), key))
    ensures |Recorded(ring, key, now)| <= MAX_EVENTS
  {
    hide Without;
    var i, keys := IndexOf(ring, key), Keys(ring);
    if i < |ring| {
      WithoutAt(keys, key, i);
      assert Keys(Recorded(ring, key, now)) == [key] + (keys[..i] + keys[i + 1..]);
    } else {
      assert key !in keys;
      WithoutAbsent(keys, key);
      KeysOfNewcomer(ring, Entry(key, now, now, 1));
    }
  }

  lemma KeysOfNewcomer(ring: seq<Entry>, entry: Entry)
    ensures Keys(Bounded([entry] + ring)) == Front([entry.key] + Keys(ring))
  {
    assert Keys([entry] + ring) == [entry.key] + Keys(ring);
    if |ring| >= MAX_EVENTS {
      assert Keys(([entry] + ring)[..MAX_EVENTS]) == Keys([entry] + ring)[..MAX_EVENTS];
    }
  }

  /** THEOREM (the ring is its history). After any sequence of events the ring holds
      exactly the 100 most recently seen distinct events, newest first, each once. */
  lemma {:induction false} RingIsRecent(history: seq<Hit>)
    ensures Keys(RingAfter(history)) == Front(Recent(history))
    ensures |RingAfter(history)| <= MAX_EVENTS && NoRepeats(Keys(RingAfter(history)))
  {
    RecentDistinct(history);
    if history != [] {
      var front, last := history[..|history| - 1], history[|history| - 1];
      RingIsRecent(front);
      RecentDistinct(front);
      RecordedKeys(RingAfter(front), last.key, last.now);
      FrontOfMoved(Recent(front), last.key);
    }
  }

  // ---- counts and times ----

  function Occurrences(history: seq<Hit>, key: Key, from: nat): nat
    requires from <= |history|
  {
    if |history| == from then 0
    else Occurrences(history[..|history| - 1], key, from) + (if history[|history| - 1].key == key then 1 else 0)
  }

  /** The event entered the ring at hit `e`: it was not in it just before, and has been
      in it ever since. */
  ghost predicate EnteredAt(history: seq<Hit>, key: Key, e: nat) {
    && e < |history| && history[e].key == key
    && key !in Keys(RingAfter(history[..e]))
    && forall u | e < u <= |history| :: key in Keys(RingAfter(history[..u]))
  }

  ghost predicate LastSeen(history: seq<Hit>, key: Key, now: int) {
    exists l: nat :: l < |history| && history[l].key == key && now == history[l].now
      && forall u | l < u < |history| :: history[u].key != key
  }

  /** The entry tells, of the event since it last entered the ring: how often it was
      seen, when it was first seen and when last. */
  ghost predicate TellsFrom(history: seq<Hit>, entry: Entry, e: nat) {
    && EnteredAt(history, entry.key, e)
    && entry.count == Occurrences(history, entry.key, e)
    && entry.first == history[e].now
    && LastSeen(history, entry.key, entry.last)
  }

  lemma NoneFromEnd(history: seq<Hit>, key: Key)
    ensures Occurrences(history, key, |history|) == 0
  {}

  /** The entries after a hit: the hit's own in front, the others as they were. */
  lemma RecordedEntries(ring: seq<Entry>, key: Key, now: int, entry: Entry)
    requires entry in Recorded(ring, key, now) && NoRepeats(Keys(ring))
    ensures entry.key != key ==> entry in ring
    ensures entry.key == key && key in Keys(ring) ==>
      exists before :: before in ring && before.key == key && entry == before.(last := now, count := before.count + 1)
    ensures entry.key == key && key !in Keys(ring) ==> entry == Entry(key, now, now, 1)
  {
    var i := IndexOf(ring, key);
    if i < |ring| {
      assert Keys(ring)[i] == key;
      assert forall j | 0 <= j < |ring| && j != i :: Keys(ring)[j] == ring[j].key;
      assert ring[i] in ring;
    } else {
      assert forall j | 0 <= j < |ring| :: Keys(ring)[j] == ring[j].key;
    }
  }

  lemma EnteredMore(history: seq<Hit>, key: Key, e: nat)
    requires history != [] && EnteredAt(history[..|history| - 1], key, e) && key in Keys(RingAfter(history))
    ensures EnteredAt(history, key, e)
  {
    hide Keys, RingAfter;
    var front := history[..|history| - 1];
    assert history[..e] == front[..e];
    forall u | e < u <= |history| ensures key in Keys(RingAfter(history[..u])) {
      if u <= |front| {
        assert history[..u] == front[..u];
      } else {
        assert history[..u] == history;
      }
    }
  }

  lemma {:induction false} EnteredNow(history: seq<Hit>)
    requires history != []
    requires var key := history[|history| - 1].key;
      key !in Keys(RingAfter(history[..|history| - 1])) && key in Keys(RingAfter(history))
    ensures EnteredAt(history, history[|history| - 1].key, |history| - 1)
  {
    assert history[..|history|] == history;
  }

  lemma InKeys(ring: seq<Entry>, entry: Entry)
    requires entry in ring
    ensures entry.key in Keys(ring)
  {
    var i :| 0 <= i < |ring| && ring[i] == entry;
    assert Keys(ring)[i] == entry.key;
  }

  lemma SeenMore(history: seq<Hit>, key: Key, now: int)
    requires history != [] && history[|history| - 1].key != key && LastSeen(history[..|history| - 1], key, now)
    ensures LastSeen(history, key, now)
  {
    var front := history[..|history| - 1];
    var l: nat :| l < |front| && front[l].key == key && now == front[l].now
      && forall u | l < u < |front| :: front[u].key != key;
    assert history[l] == front[l];
    forall u | l < u < |history| ensures history[u].key != key {
      assert u < |front| ==> history[u] == front[u];
    }
  }

  lemma SeenNow(history: seq<Hit>)
    requires history != []
    ensures LastSeen(history, history[|history| - 1].key, history[|history| - 1].now)
  {}

  /** THEOREM (what the counts mean). Every entry's count is the number of occurrences of
      its event since the event last entered the ring, its first time is that entry's,
      and its last time is the most recent occurrence's. */
  lemma {:induction false} EntriesTell(history: seq<Hit>, entry: Entry) returns (e: nat)
    requires entry in RingAfter(history)
    ensures TellsFrom(history, entry, e)
  {
    hide Recorded, Keys, LastSeen, EnteredAt;
    var front, last := history[..|history| - 1], history[|history| - 1];
    RingIsRecent(front);
    RecordedEntries(RingAfter(front), last.key, last.now, entry);
    InKeys(RingAfter(history), entry);
    if entry.key != last.key {
      e := EntriesTell(front, entry);
      EnteredMore(history, entry.key, e);
      SeenMore(history, entry.key, entry.last);
      EnteredBound(front, entry.key, e);
    } else if last.key in Keys(RingAfter(front)) {
      var before :| before in RingAfter(front) && before.key == last.key
        && entry == before.(last := last.now, count := before.count + 1);
      e := EntriesTell(front, before);
      EnteredMore(history, entry.key, e);
      SeenNow(history);
      EnteredBound(front, entry.key, e);
    } else {
      e := |front|;
      EnteredNow(history);
      NoneFromEnd(front, entry.key);
      SeenNow(history);
    }
  }

  lemma EnteredBound(history: seq<Hit>, key: Key, e: nat)
    requires EnteredAt(history, key, e)
    ensures e < |history|
  {}

  /** That entry point is unique, so the count is determined by the history. */
  lemma EnteredOnce(history: seq<Hit>, key: Key, e: nat, f: nat)
    requires EnteredAt(history, key, e) && EnteredAt(history, key, f)
    ensures e == f
  {}

  // ---- which events are the same ----

  /** A short message is kept, and of a long one the first 2000 characters. */
  lemma TruncationKeeps(message: string)
    ensures |message| <= 2000 ==> Truncated(message) == message
    ensures |message| > 2000 ==> |Truncated(message)| > 2000 && Truncated(message)[..2000] == message[..2000]
    ensures |message| > 2000 ==> |Truncated(message)| <= 2000 + 22 + |Dec(|message| - 2000)|
  {
    hide Dec;
  }

  lemma OmittedDiffer(m: nat, n: nat)
    ensures Dec(m) + " chars]" == Dec(n) + " chars]" ==> m == n
  {
    hide Dec;
    ParseDec(m);
    ParseDec(n);
    if Dec(m) + " chars]" == Dec(n) + " chars]" {
      assert Dec(m) + " chars]" == Dec(m) + [' '] + "chars]" && Dec(n) + " chars]" == Dec(n) + [' '] + "chars]";
      CutAt(Dec(m), "chars]", ' ');
      CutAt(Dec(n), "chars]", ' ');
    }
  }

  lemma TailOf(message: string)
    requires |message| > 2000
    ensures |Truncated(message)| > 2015 && Truncated(message)[2015..] == Dec(|message| - 2000) + " chars]"
  {
    hide Dec;
    var tail := Dec(|message| - 2000) + " chars]";
    assert Truncated(message) == (message[..2000] + "... [truncated ") + tail;
  }

  /** Two long messages are truncated to the same text exactly if they have the same first
      2000 characters and the same length. */
  lemma LongMessages(a: string, b: string)
    requires |a| > 2000 && |b| > 2000
    ensures Truncated(a) == Truncated(b) <==> a[..2000] == b[..2000] && |a| == |b|
  {
    hide Dec;
    if Truncated(a) == Truncated(b) {
      hide Truncated;
      TruncationKeeps(a);
      TruncationKeeps(b);
      TailOf(a);
      TailOf(b);
      OmittedDiffer(|a| - 2000, |b| - 2000);
    }
  }

  /** THEOREM (which events are the same). Two events are counted together exactly if they
      have the same type, the same resource, and the same message or two messages of the
      same length above 2000 characters that agree on the first 2000. */
  lemma SameEventIff(kind: string, resource: string, a: string, kind': string, resource': string, b: string)
    ensures KeyOf(kind, resource, a) == KeyOf(kind', resource', b) <==>
      kind == kind' && resource == resource'
      && (a == b || (|a| == |b| && |a| > 2000 && a[..2000] == b[..2000]))
  {
    hide Truncated;
    TruncationKeeps(a);
    TruncationKeeps(b);
    if |a| > 2000 && |b| > 2000 {
      LongMessages(a, b);
    }
  }

  /** In numbers: the ring holds all distinct events of the history while there are at most
      100 of them, and the 100 most recently seen ones after that. */
  lemma RingHoldsHundred(history: seq<Hit>)
    ensures var recent := Recent(history);
      Keys(RingAfter(history)) == if |recent| <= 100 then recent else recent[..100]
  {
    hide Recent, RingAfter, Keys;
    RingIsRecent(history);
  }
}
