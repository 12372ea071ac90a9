/**
 producer/sqldb/db.go: one transaction per Send, which deletes the rows of the name and inserts its hashes.
 DeleteQuery and InsertQuery are configured; they are taken to delete by name and to insert (hash, name).
 */
module SqlSink {
  import opened HashIndex

  /** Which steps of a Send work. */
  datatype Luck = Luck(open: bool, ping: bool, begins: bool, delete: bool, prepare: bool,
                       insertV1: bool, insertV2: bool, insertCut: bool, commit: bool, rollback: bool)
  {
    predicate Begins() { ping && begins }

    predicate Executes(v2: bool) { delete && prepare && insertV1 && (v2 ==> insertV2 && insertCut) }
  }

  function Replaced(rows: Relation, name: string, hs: Hashes): Relation
    requires hs.Valid()
  {
    (set p | p in rows && p.1 != name) + Tagged(hs, name)
  }

  class DB {
    const hasher: Hasher
    const calculateV2: bool
    var rows: Relation

    constructor (hasher: Hasher, calculateV2: bool)
      ensures this.hasher == hasher && this.calculateV2 == calculateV2 && rows == {}
    {
      this.hasher := hasher;
      this.calculateV2 := calculateV2;
      rows := {};
    }

    /** All or nothing. The result is that of the rollback when a statement failed, so a failed Send is
        reported as a success exactly when it could be rolled back. */
    method ExecDB(name: string, hs: Hashes, l: Luck) returns (ok: bool)
      requires hs.Valid()
      modifies this`rows
      ensures var done := l.Begins() && l.Executes(hs.v2 != "");
              && rows == (if done && l.commit then Replaced(old(rows), name, hs) else old(rows))
              && (ok <==> l.Begins() && if done then l.commit else l.rollback)
    {
      ok := l.ping;
      if ok {
        ok := l.begins;
        if ok {
          var tx := rows;
          ok := l.delete;
          if ok {
            tx := set p | p in tx && p.1 != name;
            ok := l.prepare;
            if ok {
              ok := l.insertV1;
              if ok { tx := tx + {(hs.v1, name)}; }
              if |hs.v2| > 0 && ok {
                ok := l.insertV2;
                if ok {
                  tx := tx + {(hs.v2, name)};
                  ok := l.insertCut;
                  if ok { tx := tx + {(hs.v2[..SHA1_SIZE], name)}; }
                }
              }
            }
          }
          if ok {
            ok := l.commit;
            if ok { rows := tx; }
          } else {
            ok := l.rollback;
          }
        }
      }
    }

    method Send(s: Send, l: Luck)
      modifies this`rows
      ensures var hs := Generate(hasher, s.data, calculateV2);
              rows == if hs.Some? && l.open && l.Begins() && l.Executes(calculateV2) && l.commit
                      then Replaced(old(rows), s.name, hs.value) else old(rows)
      ensures var v2 := calculateV2;
              var works := l.open && l.ping && l.begins && l.delete && l.prepare && l.insertV1
                           && (v2 ==> l.insertV2 && l.insertCut) && l.commit;
              && (hasher.info(s.data).None? || !works ==> rows == old(rows))
              && (hasher.info(s.data).Some? && works ==>
                    var i := hasher.info(s.data).value;
                    forall h, n :: (h, n) in rows <==>
                      if n != s.name then (h, n) in old(rows)
                      else h == hasher.sha1(i) || (v2 && (h == hasher.sha256(i) || h == hasher.sha256(i)[..20])))
    {
      forall h: Bytes { KeysOf(hasher, s.data, calculateV2, h); }
      var hs := Generate(hasher, s.data, calculateV2);
      if hs.Some? && l.open {
        var _ := ExecDB(s.name, hs.value, l);
      }
    }
  }
}
