/** cmd/migrate.go: which torrents are copied when the old database lists a name more than once. */
module Migration {
  import S = Store

  type Listing = seq<S.DBTorrent>

  /** What the old database answers: its listing, and files and metadata by id. */
  datatype Source = Source(torrents: Listing, files: map<int, seq<string>>, meta: map<int, map<string, string>>) {
    function FilesOf(id: int): seq<string> { if id in files then files[id] else [] }

    function MetaOf(id: int): map<string, string> { if id in meta then meta[id] else map[] }

    function EntryOf(t: S.DBTorrent): S.Entry { S.Entry(t.data, t.image, S.ToSet(FilesOf(t.id)), MetaOf(t.id)) }
  }

  predicate SortedById(ts: Listing) { forall i, j :: 0 <= i < j < |ts| ==> ts[i].id <= ts[j].id }

  /** `t` is a record with the greatest id of its name. */
  predicate Wins(ts: Listing, t: S.DBTorrent) {
    t in ts && forall u :: u in ts && u.name == t.name ==> u.id <= t.id
  }

  /** One winner for every name of the listing. */
  predicate Winners(ts: Listing, unq: map<string, S.DBTorrent>) {
    && (forall t :: t in ts ==> t.name in unq)
    && (forall n :: n in unq ==> unq[n].name == n && Wins(ts, unq[n]))
  }

  predicate IdsDistinct(ts: Listing) { forall t, u :: t in ts && u in ts && t.id == u.id ==> t == u }

  /** The map is filled in the order of ids, so for each name the greatest id stays. `sorted` is what the sort
      made of the listing: any sorted arrangement of it. */
  method Deduplicate(ts: Listing, sorted: Listing) returns (unq: map<string, S.DBTorrent>)
    requires SortedById(sorted) && multiset(sorted) == multiset(ts)
    ensures Winners(ts, unq)
  {
    unq := map[];
    for i := 0 to |sorted|
      invariant Winners(sorted[..i], unq)
    {
      assert sorted[..i + 1] == sorted[..i] + [sorted[i]];
      NextWinner(sorted[..i], unq, sorted[i]);
      unq := unq[sorted[i].name := sorted[i]];
    }
    assert sorted[..|sorted|] == sorted;
    forall t ensures t in sorted <==> t in ts {
      assert t in multiset(sorted) <==> t in multiset(ts);
    }
  }

  lemma NextWinner(ts: Listing, unq: map<string, S.DBTorrent>, t: S.DBTorrent)
    requires Winners(ts, unq) && forall u :: u in ts ==> u.id <= t.id
    ensures Winners(ts + [t], unq[t.name := t])
  {
    forall n | n in unq && n != t.name ensures Wins(ts + [t], unq[n]) {
      assert Wins(ts, unq[n]);
    }
  }

  /** With distinct ids there is only one possible outcome, however the sort ordered the listing. */
  lemma OneOutcome(ts: Listing, a: map<string, S.DBTorrent>, b: map<string, S.DBTorrent>)
    requires IdsDistinct(ts) && Winners(ts, a) && Winners(ts, b)
    ensures a == b
  {
    forall n | n in a ensures n in b && a[n] == b[n] {
      assert Wins(ts, a[n]) && a[n].name == n;
      assert Wins(ts, b[n]) && b[n].name == n;
    }
    forall n | n in b ensures n in a {
      assert Wins(ts, b[n]);
    }
  }

  /** The map is then walked in no particular order: `order` holds each winner once. */
  predicate Walks(unq: map<string, S.DBTorrent>, order: Listing) {
    && (forall i :: 0 <= i < |order| ==> order[i].name in unq && unq[order[i].name] == order[i])
    && (forall i, j :: 0 <= i < j < |order| ==> order[i].name != order[j].name)
    && (forall n :: n in unq ==> unq[n] in order)
  }

  /** No name and no id is put twice. */
  predicate AllDistinct(order: Listing) {
    forall i, j :: 0 <= i < j < |order| ==> order[i].name != order[j].name && order[i].id != order[j].id
  }

  /** A walk copies exactly the winners of the listing, each once. */
  lemma WalkIsWinners(ts: Listing, unq: map<string, S.DBTorrent>, order: Listing)
    requires IdsDistinct(ts) && Winners(ts, unq) && Walks(unq, order)
    ensures AllDistinct(order)
    ensures forall t :: t in order <==> Wins(ts, t)
  {
    forall t | t in order ensures Wins(ts, t) {
      assert Wins(ts, unq[t.name]);
    }
    forall t | Wins(ts, t) ensures t in order {
      assert Wins(ts, unq[t.name]) && unq[t.name].name == t.name;
    }
    forall i, j | 0 <= i < j < |order| ensures order[i].id != order[j].id {
      assert order[i] in ts && order[j] in ts by {
        assert Wins(ts, unq[order[i].name]) && Wins(ts, unq[order[j].name]);
      }
    }
  }
}
