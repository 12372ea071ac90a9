/** What the three hash producers share: the info hashes of a torrent (shared/torrent.go) and what they are sent. */
module HashIndex {
  import opened Basics

  type Bytes = string

  const SHA1_SIZE := 20
  const SHA256_SIZE := 32

  type Sha1 = s: Bytes | |s| == SHA1_SIZE witness seq(SHA1_SIZE, _ => '0')
  type Sha256 = s: Bytes | |s| == SHA256_SIZE witness seq(SHA256_SIZE, _ => '0')

  /** `info` is the raw info section of a torrent file, if it decodes. */
  datatype Hasher = Hasher(info: Bytes -> Option<Bytes>, sha1: Bytes -> Sha1, sha256: Bytes -> Sha256)

  /** The result of GenerateTorrentInfoHash: `v2` is empty unless it was asked for. */
  datatype Hashes = Hashes(v1: Sha1, v2: Bytes) {
    predicate Valid() { v2 == "" || |v2| == SHA256_SIZE }

    /** The keys a torrent is found under: v1, v2 and v2 cut to the length of v1. */
    function Codes(): set<Bytes>
      requires Valid()
    {
      if v2 == "" then {v1} else {v1, v2, v2[..SHA1_SIZE]}
    }
  }

  function Generate(h: Hasher, data: Bytes, v2: bool): (r: Option<Hashes>)
    ensures r.Some? ==> r.value.Valid() && (r.value.v2 == "" <==> !v2)
  {
    match h.info(data)
    case None => None
    case Some(info) => Some(Hashes(h.sha1(info), if v2 then h.sha256(info) else ""))
  }

  /** Only what does not decode has no hashes; and unless their digests collide, two files have the same hashes
      exactly if their info sections agree, whatever trackers and comments surround them. */
  lemma SameHashesExactly(h: Hasher, a: Bytes, b: Bytes, v2: bool)
    requires h.info(a).Some? && h.info(b).Some? && h.sha1(h.info(a).value) == h.sha1(h.info(b).value) ==>
               h.info(a) == h.info(b)
    ensures Generate(h, a, v2).Some? <==> h.info(a).Some?
    ensures Generate(h, a, v2) == Generate(h, b, v2) <==> h.info(a) == h.info(b)
  {
  }

  /** Which keys a torrent is found under: the SHA-1 of its info section and, if wanted, the SHA-256 of that section,
      whole and cut to twenty bytes. */
  lemma KeysOf(h: Hasher, data: Bytes, v2: bool, key: Bytes)
    ensures Generate(h, data, v2).Some? <==> h.info(data).Some?
    ensures h.info(data).Some? ==>
              var i := h.info(data).value;
              (key in Generate(h, data, v2).value.Codes() <==>
               key == h.sha1(i) || (v2 && (key == h.sha256(i) || key == h.sha256(i)[..20])))
  {
  }

  /** One call of a producer's Send. */
  datatype Send = Send(isNew: bool, name: string, data: Bytes)

  /** Which name each hash belongs to. */
  type Relation = set<(Bytes, string)>

  /** Every hash of `hs` belongs to `name`. */
  function Tagged(hs: Hashes, name: string): Relation
    requires hs.Valid()
  {
    set h | h in hs.Codes() :: (h, name)
  }
}
