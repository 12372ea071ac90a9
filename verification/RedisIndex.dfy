/** What the Redis hash producer keeps: every mapped hash can be found again through its name's record. */
module RedisIndex {
  import opened HashIndex
  import opened RedisSink
  import R = RedisServer

  /** The keys involved hold hashes or nothing. */
  ghost predicate Shape(c: Settings, ks: R.Keyspace) {
    R.HashKey(ks, c.hashKey) && forall n: string :: R.HashKey(ks, c.NameKey(n))
  }

  /** Every mapped hash is listed in the record of its name. */
  ghost predicate Inv(c: Settings, ks: R.Keyspace) {
    && Shape(c, ks)
    && forall h :: h in HashMap(c, ks) ==> c.Apart(HashMap(c, ks)[h]) && h in Listed(c, ks, HashMap(c, ks)[h])
  }

  lemma NameKeysDiffer(c: Settings, m: string, n: string)
    requires m != n
    ensures c.NameKey(m) != c.NameKey(n)
  {
    assert c.NameKey(m)[|c.nameKeyPrefix|..] == m && c.NameKey(n)[|c.nameKeyPrefix|..] == n;
  }

  /** What a Send takes out of the hash map first. */
  function Removed(c: Settings, ks: R.Keyspace, s: Send, net: Net): set<Bytes> {
    if s.isNew || !net.hmget || !net.hdel then {} else Listed(c, ks, s.name)
  }

  /** What the record of `name` lists once `hs` is written over it. */
  function NextListed(c: Settings, ks: R.Keyspace, name: string, hs: Hashes): set<Bytes>
    requires hs.Valid()
  {
    InRecord(R.Fields(ks, c.NameKey(name)) + Record(hs))
  }

  lemma PurgeEffect(c: Settings, ks: R.Keyspace, name: string, net: Net)
    requires Shape(c, ks)
    ensures var k := Purged(c, ks, name, net);
            && Shape(c, k)
            && HashMap(c, k) == HashMap(c, ks) - (if net.hmget && net.hdel then Listed(c, ks, name) else {})
            && forall key :: key != c.hashKey ==> R.Fields(k, key) == R.Fields(ks, key)
  {
    hide Listed;
    var k := Purged(c, ks, name, net);
    forall n: string ensures R.HashKey(k, c.NameKey(n)) { assert R.HashKey(ks, c.NameKey(n)); }
    assert HashMap(c, ks) - {} == HashMap(c, ks);
  }

  lemma StoreEffect(c: Settings, ks: R.Keyspace, name: string, hs: Hashes, net: Net)
    requires Shape(c, ks) && hs.Valid() && c.Apart(name)
    ensures var k := Stored(c, ks, name, hs, net);
            && Shape(c, k)
            && HashMap(c, k) == (if net.hsetHashes then HashMap(c, ks) + Names(hs, name) else HashMap(c, ks))
            && (forall key :: key != c.hashKey && key != c.NameKey(name) ==> R.Fields(k, key) == R.Fields(ks, key))
            && R.Fields(k, c.NameKey(name)) ==
               if net.hsetHashes && net.hsetRecord then R.Fields(ks, c.NameKey(name)) + Record(hs)
               else R.Fields(ks, c.NameKey(name))
  {
    hide Names, Record;
    var k := Stored(c, ks, name, hs, net);
    forall n: string ensures R.HashKey(k, c.NameKey(n)) { assert R.HashKey(ks, c.NameKey(n)); }
    assert R.HashKey(ks, c.NameKey(name));
  }

  /** The whole effect of a Send: on the hash map, on its own name's record, and on nobody else's. */
  lemma SendEffect(c: Settings, ks: R.Keyspace, s: Send, net: Net)
    requires Shape(c, ks) && c.Apart(s.name)
    ensures var k := Sent(c, ks, s, net);
            var hs := c.HashesOf(s.data);
            && Shape(c, k)
            && HashMap(c, k) == HashMap(c, ks) - Removed(c, ks, s, net)
                              + (if hs.Some? && net.hsetHashes then Names(hs.value, s.name) else map[])
            && (forall n :: n != s.name && c.Apart(n) ==> Listed(c, k, n) == Listed(c, ks, n))
            && Listed(c, k, s.name) == if hs.Some? && net.hsetHashes && net.hsetRecord
                                       then NextListed(c, ks, s.name, hs.value) else Listed(c, ks, s.name)
  {
    hide Purged, Stored, Names, Record, InRecord, Shape, Settings.HashesOf;
    PurgeEffect(c, ks, s.name, net);
    var p := if s.isNew then ks else Purged(c, ks, s.name, net);
    var hs := c.HashesOf(s.data);
    assert HashMap(c, p) == HashMap(c, ks) - Removed(c, ks, s, net);
    if hs.Some? { StoreEffect(c, p, s.name, hs.value, net); }
    forall n | n != s.name && c.Apart(n) ensures Listed(c, Sent(c, ks, s, net), n) == Listed(c, ks, n) {
      NameKeysDiffer(c, n, s.name);
    }
  }

  lemma Codes(hs: Hashes, name: string)
    requires hs.Valid()
    ensures Names(hs, name).Keys == hs.Codes()
    ensures hs.v2 != "" ==> InRecord(Record(hs)) == hs.Codes()
    ensures forall fields :: hs.Codes() <= InRecord(fields + Record(hs))
  {
    forall fields ensures hs.Codes() <= InRecord(fields + Record(hs)) {
      var m := fields + Record(hs);
      assert V1_FIELD in RECORD_FIELDS && m[V1_FIELD] == hs.v1;
      if hs.v2 != "" {
        assert V2_FIELD in RECORD_FIELDS && m[V2_FIELD] == hs.v2;
        assert HYBRID_FIELD in RECORD_FIELDS && m[HYBRID_FIELD] == hs.v2[..SHA1_SIZE];
      }
    }
    if hs.v2 != "" { assert map[] + Record(hs) == Record(hs); }
  }

  /** The two ways a Send strands hashes: new ones are mapped but their record is not written, or a record is
      overwritten that was needed to find hashes still mapped. */
  predicate Strands(c: Settings, ks: R.Keyspace, s: Send, net: Net) {
    var hs := c.HashesOf(s.data);
    && hs.Some? && net.hsetHashes
    && if net.hsetRecord
       then !(Mapped(c, ks, s.name) - Removed(c, ks, s, net) <= NextListed(c, ks, s.name, hs.value))
       else !(hs.value.Codes() <= Listed(c, ks, s.name))
  }

  /** Whatever commands fail, a Send keeps every mapped hash listed exactly unless it strands one. */
  lemma KeepsListedExactly(c: Settings, ks: R.Keyspace, s: Send, net: Net)
    requires Inv(c, ks) && c.Apart(s.name)
    ensures Inv(c, Sent(c, ks, s, net)) <==> !Strands(c, ks, s, net)
  {
    hide Sent, NextListed, Listed, Shape, Names, Settings.HashesOf;
    SendEffect(c, ks, s, net);
    var k := Sent(c, ks, s, net);
    var hs := c.HashesOf(s.data);
    if hs.Some? && net.hsetHashes {
      Codes(hs.value, s.name);
      NamesAre(hs.value, s.name);
      NextListsCodes(c, ks, s.name, hs.value);
      forall h | h in HashMap(c, k) && HashMap(c, k)[h] != s.name ensures h in Listed(c, k, HashMap(c, k)[h]) {
        assert h in HashMap(c, ks);
      }
      if Inv(c, k) { NotStranded(c, ks, s, net); }
    } else {
      forall h | h in HashMap(c, k) ensures h in HashMap(c, ks) && HashMap(c, ks)[h] == HashMap(c, k)[h] {}
    }
  }

  lemma NamesAre(hs: Hashes, name: string)
    requires hs.Valid()
    ensures forall h :: h in Names(hs, name) <==> h in hs.Codes()
    ensures forall h :: h in Names(hs, name) ==> Names(hs, name)[h] == name
  {
  }

  lemma NextListsCodes(c: Settings, ks: R.Keyspace, name: string, hs: Hashes)
    requires hs.Valid()
    ensures hs.Codes() <= NextListed(c, ks, name, hs)
  {
    Codes(hs, name);
  }

  lemma NotStranded(c: Settings, ks: R.Keyspace, s: Send, net: Net)
    requires Inv(c, ks) && c.Apart(s.name) && Inv(c, Sent(c, ks, s, net))
    ensures !Strands(c, ks, s, net)
  {
    hide Sent, NextListed, Listed, Shape, Names, Settings.HashesOf;
    SendEffect(c, ks, s, net);
    var k := Sent(c, ks, s, net);
    var hs := c.HashesOf(s.data);
    if hs.Some? && net.hsetHashes {
      NamesAre(hs.value, s.name);
      NextListsCodes(c, ks, s.name, hs.value);
      forall h | h in hs.value.Codes() ensures h in Listed(c, k, s.name) {
        assert h in HashMap(c, k) && HashMap(c, k)[h] == s.name;
      }
      forall h | h in Mapped(c, ks, s.name) - Removed(c, ks, s, net) ensures h in Listed(c, k, s.name) {
        assert h in HashMap(c, k) && HashMap(c, k)[h] == s.name;
      }
    }
  }

  /** A Send takes from every other name the hashes it removes or claims, and nothing else. */
  lemma OthersExactly(c: Settings, ks: R.Keyspace, s: Send, n: string)
    requires Inv(c, ks) && c.Apart(s.name) && n != s.name && c.HashesOf(s.data).Some?
    ensures Mapped(c, Sent(c, ks, s, ALL_UP), n) ==
            Mapped(c, ks, n) - Removed(c, ks, s, ALL_UP) - c.HashesOf(s.data).value.Codes()
  {
    hide Sent, NextListed, Listed, Shape, Names, Settings.HashesOf;
    SendEffect(c, ks, s, ALL_UP);
    NamesAre(c.HashesOf(s.data).value, s.name);
  }

  /** After a Send that got through, the hashes mapped to its name are the current ones, exactly if it looked
      for the previous ones or there were none to look for. */
  lemma MappedExactly(c: Settings, ks: R.Keyspace, s: Send)
    requires Inv(c, ks) && c.Apart(s.name) && c.HashesOf(s.data).Some?
    ensures var codes := c.HashesOf(s.data).value.Codes();
            Mapped(c, Sent(c, ks, s, ALL_UP), s.name) == codes <==> !s.isNew || Mapped(c, ks, s.name) <= codes
  {
    hide Sent, NextListed, Listed, Shape, Names, Settings.HashesOf;
    SendEffect(c, ks, s, ALL_UP);
    var codes := c.HashesOf(s.data).value.Codes();
    NamesAre(c.HashesOf(s.data).value, s.name);
    assert Mapped(c, Sent(c, ks, s, ALL_UP), s.name) == (Mapped(c, ks, s.name) - Removed(c, ks, s, ALL_UP)) + codes;
    if !s.isNew { assert Mapped(c, ks, s.name) <= Removed(c, ks, s, ALL_UP); }
  }

  /** So after a Send that got through its name's keys are the SHA-1 of the info section and, if wanted, the SHA-256,
      whole and cut to twenty bytes; the record holds them under their fields. */
  lemma KeysExactly(c: Settings, ks: R.Keyspace, s: Send)
    requires Inv(c, ks) && c.Apart(s.name) && c.hasher.info(s.data).Some?
    ensures var k, i := Sent(c, ks, s, ALL_UP), c.hasher.info(s.data).value;
            var m, f := R.Fields(k, c.hashKey), R.Fields(k, c.nameKeyPrefix + s.name);
            var v1, v2 := c.hasher.sha1(i), c.hasher.sha256(i);
            && v1 in m && m[v1] == s.name && "v1" in f && f["v1"] == v1
            && (c.calculateV2 ==>
                  && v2 in m && v2[..20] in m && m[v2] == m[v2[..20]] == s.name
                  && "v2" in f && "v2to1" in f && f["v2"] == v2 && f["v2to1"] == v2[..20])
            && (!s.isNew ==>
                  forall h :: h in m && m[h] == s.name ==> h == v1 || (c.calculateV2 && (h == v2 || h == v2[..20])))
  {
    hide Sent, NextListed, Listed, Shape, Names;
    var k, i := Sent(c, ks, s, ALL_UP), c.hasher.info(s.data).value;
    var hs := c.HashesOf(s.data).value;
    forall h: Bytes { KeysOf(c.hasher, s.data, c.calculateV2, h); }
    MappedExactly(c, ks, s);
    SendEffect(c, ks, s, ALL_UP);
    NamesAre(hs, s.name);
    WrittenRecord(c, ks, s);
    forall h | h in hs.Codes() ensures h in HashMap(c, k) && HashMap(c, k)[h] == s.name {}
    assert hs.v1 in hs.Codes();
  }

  /** The record a Send that got through leaves: the earlier one with the new hashes over it. */
  lemma WrittenRecord(c: Settings, ks: R.Keyspace, s: Send)
    requires Shape(c, ks) && c.Apart(s.name) && c.HashesOf(s.data).Some?
    ensures R.Fields(Sent(c, ks, s, ALL_UP), c.NameKey(s.name))
         == R.Fields(ks, c.NameKey(s.name)) + Record(c.HashesOf(s.data).value)
  {
    hide Purged, Stored, Names, Record, InRecord, Shape, Settings.HashesOf;
    PurgeEffect(c, ks, s.name, ALL_UP);
    var p := if s.isNew then ks else Purged(c, ks, s.name, ALL_UP);
    StoreEffect(c, p, s.name, c.HashesOf(s.data).value, ALL_UP);
  }

  /** A record that sits on the hash map pollutes it: its field names become hashes. */
  lemma PollutedExactly(c: Settings, ks: R.Keyspace, s: Send)
    requires Shape(c, ks) && c.HashesOf(s.data).Some? && V1_FIELD !in HashMap(c, ks)
    ensures V1_FIELD in HashMap(c, Sent(c, ks, s, ALL_UP)) <==> !c.Apart(s.name)
  {
    var hs := c.HashesOf(s.data).value;
    assert V1_FIELD !in hs.Codes() by { assert |V1_FIELD| == 2; }
    NamesAre(hs, s.name);
    if c.Apart(s.name) {
      hide Sent, Shape, Names, Settings.HashesOf;
      SendEffect(c, ks, s, ALL_UP);
    } else {
      PurgeEffect(c, ks, s.name, ALL_UP);
      var p := if s.isNew then ks else Purged(c, ks, s.name, ALL_UP);
      hide Purged, Names;
      var k := R.HSet(p, c.hashKey, Names(hs, s.name)).0;
      assert V1_FIELD in Record(hs);
      assert V1_FIELD in R.Fields(R.HSet(k, c.hashKey, Record(hs)).0, c.hashKey);
    }
  }

  // ----- Stranded hashes

  /** Mapped to a name whose record does not list it, nor does any other name's. */
  ghost predicate Stranded(c: Settings, ks: R.Keyspace, h: Bytes, name: string) {
    h in Mapped(c, ks, name) && forall n :: c.Apart(n) ==> h !in Listed(c, ks, n)
  }

  function SentAll(c: Settings, ks: R.Keyspace, ss: seq<(Send, Net)>): R.Keyspace {
    if ss == [] then ks else Sent(c, SentAll(c, ks, ss[..|ss| - 1]), ss[|ss| - 1].0, ss[|ss| - 1].1)
  }

  lemma NextListedBounds(c: Settings, ks: R.Keyspace, name: string, hs: Hashes)
    requires hs.Valid()
    ensures NextListed(c, ks, name, hs) <= Listed(c, ks, name) + hs.Codes()
  {
  }

  /** A send that does not carry a stranded hash leaves it stranded, whichever commands get through. */
  lemma StrandedStays(c: Settings, ks: R.Keyspace, h: Bytes, name: string, s: Send, net: Net)
    requires Shape(c, ks) && c.Apart(s.name) && Stranded(c, ks, h, name)
    requires c.HashesOf(s.data).Some? ==> h !in c.HashesOf(s.data).value.Codes()
    ensures Shape(c, Sent(c, ks, s, net)) && Stranded(c, Sent(c, ks, s, net), h, name)
  {
    hide Sent, Listed, NextListed, Shape, Names, Settings.HashesOf;
    SendEffect(c, ks, s, net);
    if c.HashesOf(s.data).Some? {
      NamesAre(c.HashesOf(s.data).value, s.name);
      NextListedBounds(c, ks, s.name, c.HashesOf(s.data).value);
    }
  }

  /** So no later sends ever take it out, until one carries the same hash again. */
  lemma {:induction false} StrandedForGood(c: Settings, ks: R.Keyspace, h: Bytes, name: string, ss: seq<(Send, Net)>)
    requires Shape(c, ks) && Stranded(c, ks, h, name) && forall x :: x in ss ==> c.Apart(x.0.name)
    requires forall x :: x in ss && c.HashesOf(x.0.data).Some? ==> h !in c.HashesOf(x.0.data).value.Codes()
    ensures Shape(c, SentAll(c, ks, ss)) && Stranded(c, SentAll(c, ks, ss), h, name)
    decreases |ss|
  {
    hide Sent, Stranded, Shape, Settings.HashesOf;
    if ss != [] {
      var k := |ss| - 1;
      assert forall x :: x in ss[..k] ==> x in ss;
      StrandedForGood(c, ks, h, name, ss[..k]);
      StrandedStays(c, SentAll(c, ks, ss[..k]), h, name, ss[k].0, ss[k].1);
    }
  }

  /** And it happens: a torrent is sent, then its successor while the question for its previous hashes fails. */
  lemma LostQuestionStrands(c: Settings, name: string, isNew: bool, first: Bytes, second: Bytes)
    requires c.Apart(name) && c.HashesOf(first).Some? && c.HashesOf(second).Some?
    requires c.HashesOf(first).value.v1 !in c.HashesOf(second).value.Codes()
    ensures var k1 := Sent(c, map[], Send(isNew, name, first), ALL_UP);
            Stranded(c, Sent(c, k1, Send(false, name, second), ALL_UP.(hmget := false)), c.HashesOf(first).value.v1,
                     name)
  {
    hide Sent, Listed, NextListed, Names, Settings.HashesOf;
    var s1, s2 := Send(isNew, name, first), Send(false, name, second);
    var net2 := ALL_UP.(hmget := false);
    var h1, h2 := c.HashesOf(first).value, c.HashesOf(second).value;
    var k1 := Sent(c, map[], s1, ALL_UP);
    SendEffect(c, map[], s1, ALL_UP);
    SendEffect(c, k1, s2, net2);
    NamesAre(h1, name);
    NamesAre(h2, name);
    NothingListed(c);
    FirstRecord(c, s1);
    Overwritten(c, k1, name, h1, h2);
  }

  lemma NothingListed(c: Settings)
    ensures forall n :: Listed(c, map[], n) == {}
    ensures HashMap(c, map[]) == map[]
  {
  }

  /** The record after the first send of a name. */
  lemma FirstRecord(c: Settings, s: Send)
    requires c.Apart(s.name) && c.HashesOf(s.data).Some?
    ensures R.Fields(Sent(c, map[], s, ALL_UP), c.NameKey(s.name)) == Record(c.HashesOf(s.data).value)
  {
    hide Purged, Stored, Record, Settings.HashesOf;
    PurgeEffect(c, map[], s.name, ALL_UP);
    var p := if s.isNew then map[] else Purged(c, map[], s.name, ALL_UP);
    StoreEffect(c, p, s.name, c.HashesOf(s.data).value, ALL_UP);
    assert map[] + Record(c.HashesOf(s.data).value) == Record(c.HashesOf(s.data).value);
  }

  /** With the same settings throughout, a record written over the first one lists only its own hashes. */
  lemma Overwritten(c: Settings, ks: R.Keyspace, name: string, h1: Hashes, h2: Hashes)
    requires h1.Valid() && h2.Valid() && (h1.v2 == "" <==> h2.v2 == "")
    requires R.Fields(ks, c.NameKey(name)) == Record(h1) && h1.v1 !in h2.Codes()
    ensures h1.v1 !in NextListed(c, ks, name, h2)
  {
    assert Record(h1).Keys == Record(h2).Keys;
    assert Record(h1) + Record(h2) == Record(h2);
  }
}
