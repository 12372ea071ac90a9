/**
 producer/lmdb/db.go: an index from prefix and hash to name, which is only ever added to. All keys of a
 Send are built in one buffer that starts with the prefix; Put copies the key it is given.
 */
module LmdbSink {
  import opened Basics
  import opened HashIndex

  type Index = map<Bytes, string>

  /** Which steps of a Send work. */
  datatype Luck = Luck(putV1: bool, putV2: bool, putCut: bool, commit: bool) {
    predicate Commits(v2: bool) { putV1 && (v2 ==> putV2 && putCut) && commit }
  }

  function Keyed(prefix: Bytes, hs: Hashes, name: string): Index
    requires hs.Valid()
  {
    map h | h in hs.Codes() :: prefix + h := name
  }

  function Entry(kv: Index, key: Bytes): Option<string> { if key in kv then Some(kv[key]) else None }

  /** The keys of a torrent behind the prefix. */
  lemma KeyedIs(prefix: Bytes, h: Hasher, data: Bytes, v2: bool, name: string, key: Bytes)
    requires h.info(data).Some?
    ensures Generate(h, data, v2).Some?
    ensures var i, m := h.info(data).value, Keyed(prefix, Generate(h, data, v2).value, name);
            && (key in m <==>
                key == prefix + h.sha1(i)
                || (v2 && (key == prefix + h.sha256(i) || key == prefix + h.sha256(i)[..20])))
            && (key in m ==> m[key] == name)
  {
    var hs := Generate(h, data, v2).value;
    KeysOf(h, data, v2, hs.v1);
    if key in Keyed(prefix, hs, name) {
      var c :| c in hs.Codes() && key == prefix + c;
      KeysOf(h, data, v2, c);
    }
  }

  class Mdb {
    const prefix: Bytes
    const calcV2: bool
    const hasher: Hasher
    var kv: Index

    constructor (prefix: Bytes, calcV2: bool, hasher: Hasher)
      ensures this.prefix == prefix && this.calcV2 == calcV2 && this.hasher == hasher && kv == map[]
    {
      this.prefix := prefix;
      this.calcV2 := calcV2;
      this.hasher := hasher;
      kv := map[];
    }

    /** Go's append to the first `n` bytes of `p`: in place if the capacity allows, else in a new array.
        The first `n` bytes stay, whatever was appended behind them before is overwritten. */
    static method Append(p: array<char>, n: nat, h: Bytes) returns (r: array<char>)
      requires n <= p.Length
      modifies p
      ensures n + |h| <= r.Length && r[..n + |h|] == old(p[..n]) + h
      ensures p[..n] == old(p[..n])
      ensures if n + |h| <= p.Length then r == p else fresh(r)
    {
      r := p;
      if n + |h| > p.Length {
        r := new char[n + |h|] (_ => '0');
        forall i | 0 <= i < n { r[i] := p[i]; }
      }
      forall i | 0 <= i < |h| { r[n + i] := h[i]; }
    }

    /** One transaction: either every hash is filed under prefix and hash, or nothing changes. */
    method Send(s: Send, l: Luck)
      modifies this`kv
      ensures var hs := Generate(hasher, s.data, calcV2);
              kv == if hs.Some? && l.Commits(calcV2) then old(kv) + Keyed(prefix, hs.value, s.name) else old(kv)
      ensures var works := l.putV1 && (calcV2 ==> l.putV2 && l.putCut) && l.commit;
              && (hasher.info(s.data).None? || !works ==> kv == old(kv))
              && (hasher.info(s.data).Some? && works ==>
                    var i := hasher.info(s.data).value;
                    forall key :: Entry(kv, key) ==
                      if key == prefix + hasher.sha1(i)
                         || (calcV2 && (key == prefix + hasher.sha256(i) || key == prefix + hasher.sha256(i)[..20]))
                      then Some(s.name) else Entry(old(kv), key))
    {
      var hs := Generate(hasher, s.data, calcV2);
      if hs.None? { return; }
      var h1, h2 := hs.value.v1, hs.value.v2;
      var n := |prefix|;
      var p := new char[n + SHA256_SIZE] (_ => '0');
      forall i | 0 <= i < n { p[i] := prefix[i]; }
      assert p[..n] == prefix;
      var txn := kv;
      var r := Append(p, n, h1);
      if !l.putV1 { return; }
      txn := txn[r[..n + |h1|] := s.name];
      if |h2| > 0 {
        r := Append(p, n, h2);
        if !l.putV2 { return; }
        txn := txn[r[..n + |h2|] := s.name];
        r := Append(p, n, h2[..SHA1_SIZE]);
        if !l.putCut { return; }
        txn := txn[r[..n + SHA1_SIZE] := s.name];
      }
      if !l.commit { return; }
      Filed(kv, prefix, hs.value, s.name);
      kv := txn;
      forall key: Bytes { KeyedIs(prefix, hasher, s.data, calcV2, s.name, key); }
    }
  }

  lemma Filed(kv: Index, prefix: Bytes, hs: Hashes, name: string)
    requires hs.Valid()
    ensures hs.v2 == "" ==> kv[prefix + hs.v1 := name] == kv + Keyed(prefix, hs, name)
    ensures hs.v2 != "" ==>
              kv[prefix + hs.v1 := name][prefix + hs.v2 := name][prefix + hs.v2[..SHA1_SIZE] := name]
              == kv + Keyed(prefix, hs, name)
  {
  }
}
