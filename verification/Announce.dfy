/** producer/shared.go: the size units and the positions of new files in an announcement. */
module Announce {
  import opened Basics
  import opened Decimal
  import S = Store

  // ----- FormatFileSize

  const BASE := 1024
  const SUFFIXES := "KMGTPEZY"

  function Pow(n: nat): (p: nat)
    ensures p > 0
  {
    if n == 0 then 1 else BASE * Pow(n - 1)
  }

  /** What is printed before the number is formatted: plain bytes, or the divisor and the unit. */
  datatype Size = Plain(bytes: nat) | Scaled(d: nat, suffix: char)

  lemma {:induction false} PowGrows(m: nat, n: nat)
    requires m <= n
    ensures Pow(m) <= Pow(n)
    decreases n
  {
    if m < n { PowGrows(m, n - 1); }
  }

  lemma SeventhPower()
    ensures Pow(7) == 0x40_0000_0000_0000_0000
  {
    assert Pow(1) == BASE && Pow(2) == BASE * BASE && Pow(3) == BASE * Pow(2);
    assert Pow(4) == BASE * Pow(3) && Pow(5) == BASE * Pow(4) && Pow(6) == BASE * Pow(5) && Pow(7) == BASE * Pow(6);
  }

  lemma FirstPowers()
    ensures Pow(1) == 0x400 && Pow(2) == 0x10_0000 && Pow(3) == 0x4000_0000
    ensures Pow(4) == 0x100_0000_0000 && Pow(5) == 0x4_0000_0000_0000 && Pow(6) == 0x1000_0000_0000_0000
  {
  }

  lemma SixFit(e: nat)
    requires Pow(e + 1) <= UINT64_MAX
    ensures e <= 5
  {
    SeventhPower();
    if e > 5 { PowGrows(7, e + 1); }
  }

  /** `n` is what is left of `size` in units of `d`. */
  ghost predicate Whole(size: nat, d: nat, n: nat) { n * d <= size < n * d + d }

  lemma NextUnit(size: nat, d: nat, n: nat)
    requires Whole(size, d, n) && n >= BASE
    ensures Whole(size, d * BASE, n / BASE) && d * BASE <= size
  {
    var q, r := n / BASE, n % BASE;
    assert n * d == q * (d * BASE) + r * d by { assert n == q * BASE + r; }
    assert r * d + d <= d * BASE by { AtMost(r + 1, BASE, d); }
    AtMost(BASE, n, d);
  }

  lemma AtMost(a: nat, b: nat, d: nat)
    requires a <= b
    ensures a * d <= b * d
  {
  }

  lemma LastUnit(size: nat, d: nat, n: nat)
    requires Whole(size, d, n) && n < BASE
    ensures size < BASE * d
  {
    AtMost(n + 1, BASE, d);
  }

  /** The unit is the largest power of 1024 that does not exceed the size; the divisor never leaves its 64
      bits, and there is always a letter for it. */
  method FormatFileSize(size: nat) returns (r: Size)
    requires size <= UINT64_MAX
    ensures size < BASE ==> r == Plain(size)
    ensures size >= BASE ==>
              exists e: nat :: e <= 5 && r == Scaled(Pow(e + 1), SUFFIXES[e]) && Pow(e + 1) <= size < BASE * Pow(e + 1)
    ensures 0x400 <= size < 0x10_0000 ==> r == Scaled(0x400, 'K')
    ensures 0x10_0000 <= size < 0x4000_0000 ==> r == Scaled(0x10_0000, 'M')
    ensures 0x4000_0000 <= size < 0x100_0000_0000 ==> r == Scaled(0x4000_0000, 'G')
    ensures 0x100_0000_0000 <= size < 0x4_0000_0000_0000 ==> r == Scaled(0x100_0000_0000, 'T')
    ensures 0x4_0000_0000_0000 <= size < 0x1000_0000_0000_0000 ==> r == Scaled(0x4_0000_0000_0000, 'P')
    ensures 0x1000_0000_0000_0000 <= size ==> r == Scaled(0x1000_0000_0000_0000, 'E')
  {
    FirstPowers();
    if size < BASE {
      r := Plain(size);
    } else {
      var d: nat, e: nat := BASE, 0;
      var n: nat := size / BASE;
      assert Pow(1) == BASE;
      while n >= BASE
        invariant d == Pow(e + 1) <= size && Whole(size, d, n)
        decreases n
      {
        NextUnit(size, d, n);
        assert Pow(e + 2) == BASE * Pow(e + 1);
        d := d * BASE;
        e := e + 1;
        n := n / BASE;
      }
      LastUnit(size, d, n);
      SixFit(e);
      var s := '?';
      if e < |SUFFIXES| { s := SUFFIXES[e]; }
      r := Scaled(d, s);
    }
  }

  /** Only one unit fits a size. */
  lemma OneUnit(size: nat, a: nat, b: nat)
    requires Pow(a + 1) <= size < BASE * Pow(a + 1)
    requires Pow(b + 1) <= size < BASE * Pow(b + 1)
    ensures a == b
  {
    if a < b { PowGrows(a + 2, b + 1); }
    if b < a { PowGrows(b + 2, a + 1); }
  }

  // ----- GetNewFilesIndexes

  /** The order of sort.Strings: byte by byte, a prefix first. */
  predicate Before(a: string, b: string) {
    if b == "" then false
    else if a == "" then true
    else if a[0] != b[0] then a[0] < b[0]
    else Before(a[1..], b[1..])
  }

  /** Position `k` is the first where the paths differ, and there `a` is smaller. */
  predicate Differs(a: string, b: string, k: nat) { k < |a| && k < |b| && a[..k] == b[..k] && a[k] < b[k] }

  lemma DiffersLater(a: string, b: string, k: nat)
    requires a != "" && b != "" && a[0] == b[0]
    ensures Differs(a, b, k + 1) <==> Differs(a[1..], b[1..], k)
  {
    if k < |a[1..]| && k < |b[1..]| {
      assert a[..k + 1] == [a[0]] + a[1..][..k] && b[..k + 1] == [b[0]] + b[1..][..k];
      assert a[..k + 1] == b[..k + 1] ==> a[1..][..k] == a[..k + 1][1..] == b[..k + 1][1..] == b[1..][..k];
    }
  }

  lemma DiffersFirst(a: string, b: string, k: nat)
    requires a != "" && b != "" && a[0] != b[0]
    ensures Differs(a, b, k) <==> k == 0 && a[0] < b[0]
  {
    if 0 < k <= |a| && k <= |b| { assert a[..k][0] == a[0] && b[..k][0] == b[0]; }
  }

  lemma {:induction false} BeforeDiffers(a: string, b: string)
    ensures Before(a, b) <==> a < b || exists k :: Differs(a, b, k)
    decreases |a|
  {
    hide Differs;
    if a != "" && b != "" {
      if a[0] == b[0] {
        var x, y := a[1..], b[1..];
        assert a == [a[0]] + x && b == [b[0]] + y;
        BeforeDiffers(x, y);
        forall k: nat ensures Differs(a, b, k + 1) <==> Differs(x, y, k) { DiffersLater(a, b, k); }
        NotHere(a, b);
        if k: nat :| Differs(a, b, k) { assert Differs(x, y, k - 1); }
        if k: nat :| Differs(x, y, k) { assert Differs(a, b, k + 1); }
      } else {
        forall k: nat ensures Differs(a, b, k) <==> k == 0 && a[0] < b[0] { DiffersFirst(a, b, k); }
        assert Differs(a, b, 0) <==> a[0] < b[0];
      }
    } else {
      NoPosition(a, b);
    }
  }

  lemma NotHere(a: string, b: string)
    requires a != "" && b != "" && a[0] == b[0]
    ensures !Differs(a, b, 0)
  {
  }

  lemma NoPosition(a: string, b: string)
    requires a == "" || b == ""
    ensures forall k :: !Differs(a, b, k)
  {
  }

  /** One path precedes another if it is a proper beginning of it, or smaller where they first differ. */
  lemma BeforeExactly(a: string, b: string)
    ensures Before(a, b) <==> a < b || exists k :: 0 <= k < |a| && k < |b| && a[..k] == b[..k] && a[k] < b[k]
  {
    BeforeDiffers(a, b);
    hide Before;
    if k :| 0 <= k < |a| && k < |b| && a[..k] == b[..k] && a[k] < b[k] { assert Differs(a, b, k); }
    if k: nat :| Differs(a, b, k) { assert a[..k] == b[..k]; }
  }

  lemma {:induction false} BeforeTotal(a: string, b: string)
    ensures a == b || Before(a, b) || Before(b, a)
    ensures !(Before(a, b) && Before(b, a)) && !Before(a, a)
    decreases |a|
  {
    if a != "" {
      BeforeTotal(a[1..], if b == "" then "" else b[1..]);
      assert b != "" && a[0] == b[0] && a[1..] == b[1..] ==> a == [a[0]] + a[1..] == b;
    }
  }

  lemma {:induction false} BeforeTransitive(a: string, b: string, c: string)
    requires Before(a, b) && Before(b, c)
    ensures Before(a, c)
    decreases |a|
  {
    if a != "" && a[0] == b[0] == c[0] { BeforeTransitive(a[1..], b[1..], c[1..]); }
  }

  /** What the sort may return: the keys of the map, each once, none before its predecessor. */
  predicate SortedKeys(paths: seq<string>, files: map<string, bool>) {
    && multiset(paths) == multiset(files.Keys)
    && forall i, j :: 0 <= i < j < |paths| ==> !Before(paths[j], paths[i])
  }

  function Smaller(files: map<string, bool>, path: string): set<string> { set p | p in files && Before(p, path) }

  /** The position of a path among all paths of the torrent, counted from 1. */
  function Rank(files: map<string, bool>, path: string): nat { |Smaller(files, path)| + 1 }

  lemma EachOnce(paths: seq<string>, files: map<string, bool>)
    requires multiset(paths) == multiset(files.Keys)
    ensures forall p :: p in paths <==> p in files
    ensures forall i, j :: 0 <= i < j < |paths| ==> paths[i] != paths[j]
  {
    forall p ensures p in paths <==> p in files {
      assert p in multiset(paths) <==> p in multiset(files.Keys);
    }
    forall i, j | 0 <= i < j < |paths| ensures paths[i] != paths[j] {
      assert paths == paths[..i] + [paths[i]] + paths[i + 1..j] + [paths[j]] + paths[j + 1..];
      assert multiset{paths[i], paths[j]} <= multiset(paths);
      assert multiset(files.Keys)[paths[i]] <= 1;
    }
  }

  lemma {:induction false} SizeOfPrefix(paths: seq<string>, n: nat)
    requires n <= |paths| && forall i, j :: 0 <= i < j < |paths| ==> paths[i] != paths[j]
    ensures |S.ToSet(paths[..n])| == n
  {
    if n == 0 {
      assert S.ToSet(paths[..0]) == {};
    } else {
      SizeOfPrefix(paths, n - 1);
      assert S.ToSet(paths[..n]) == S.ToSet(paths[..n - 1]) + {paths[n - 1]};
    }
  }

  /** In any sorted arrangement a path stands at its rank. */
  lemma StandsAtRank(paths: seq<string>, files: map<string, bool>, i: nat)
    requires SortedKeys(paths, files) && i < |paths|
    ensures paths[i] in files && Rank(files, paths[i]) == i + 1
  {
    EachOnce(paths, files);
    SizeOfPrefix(paths, i);
    assert Smaller(files, paths[i]) == S.ToSet(paths[..i]) by {
      forall p ensures p in Smaller(files, paths[i]) <==> p in paths[..i] {
        if p in paths[..i] {
          var k :| 0 <= k < i && paths[k] == p;
          BeforeTotal(paths[k], paths[i]);
        }
        if p in Smaller(files, paths[i]) {
          var k :| 0 <= k < |paths| && paths[k] == p;
          BeforeTotal(p, paths[i]);
          assert k < i;
          assert paths[..i][k] == p;
        }
      }
    }
  }

  ghost predicate Increasing(s: seq<int>) { forall i, j :: 0 <= i < j < |s| ==> s[i] < s[j] }

  /** The ranks of the new files, in increasing order, whatever order the map was walked in. */
  method GetNewFilesIndexes(files: map<string, bool>, sorted: seq<string>) returns (indexes: seq<int>)
    requires SortedKeys(sorted, files)
    ensures Increasing(indexes)
    ensures forall n :: n in indexes <==> exists p :: p in files && files[p] && Rank(files, p) == n
  {
    indexes := [];
    if |files| > 0 {
      for i := 0 to |sorted|
        invariant Increasing(indexes) && forall k :: 0 <= k < |indexes| ==> indexes[k] <= i
        invariant forall n :: n in indexes <==> 1 <= n <= i && sorted[n - 1] in files && files[sorted[n - 1]]
      {
        StandsAtRank(sorted, files, i);
        if files[sorted[i]] { indexes := indexes + [i + 1]; }
      }
    }
    AtRanks(files, sorted, indexes);
  }

  lemma AtRanks(files: map<string, bool>, sorted: seq<string>, indexes: seq<int>)
    requires SortedKeys(sorted, files)
    requires |files| > 0 ==>
               forall n :: n in indexes <==> 1 <= n <= |sorted| && sorted[n - 1] in files && files[sorted[n - 1]]
    requires |files| == 0 ==> indexes == []
    ensures forall n :: n in indexes <==> exists p :: p in files && files[p] && Rank(files, p) == n
  {
    hide Rank;
    EachOnce(sorted, files);
    forall n ensures n in indexes <==> exists p :: p in files && files[p] && Rank(files, p) == n {
      if n in indexes { StandsAtRank(sorted, files, n - 1); }
      if p :| p in files && files[p] && Rank(files, p) == n {
        assert p in sorted;
        var i :| 0 <= i < |sorted| && sorted[i] == p;
        StandsAtRank(sorted, files, i);
      }
    }
  }

  /** Increasing sequences with the same elements are equal: the walk order leaves no trace. */
  lemma {:induction false} OneIncreasing(a: seq<int>, b: seq<int>)
    requires Increasing(a) && Increasing(b) && forall n :: n in a <==> n in b
    ensures a == b
    decreases |a|
  {
    if a == [] {
      FirstIn(b);
    } else {
      var i, j := |a| - 1, |b| - 1;
      SameLast(a, b);
      forall n ensures n in a[..i] <==> n in b[..j] {
        Below(a, n);
        Below(b, n);
      }
      Shorter(a, i);
      Shorter(b, j);
      hide Increasing;
      OneIncreasing(a[..i], b[..j]);
      assert a == a[..i] + [a[i]] && b == b[..j] + [b[j]];
    }
  }

  lemma SameLast(a: seq<int>, b: seq<int>)
    requires Increasing(a) && Increasing(b) && a != [] && forall n :: n in a <==> n in b
    ensures b != [] && a[|a| - 1] == b[|b| - 1]
  {
    var x := a[|a| - 1];
    assert x in a;
    assert x in b;
    var y := b[|b| - 1];
    assert y in b;
    assert y in a;
  }

  lemma Shorter(a: seq<int>, k: nat)
    requires Increasing(a) && k <= |a|
    ensures Increasing(a[..k])
  {
  }

  lemma FirstIn(b: seq<int>)
    ensures b == [] || b[0] in b
  {
  }

  lemma Below(a: seq<int>, n: int)
    requires Increasing(a) && a != []
    ensures n in a[..|a| - 1] <==> n in a && n < a[|a| - 1]
  {
    var k := |a| - 1;
    if n in a && n < a[k] {
      var i :| 0 <= i < |a| && a[i] == n;
      assert a[..k][i] == n;
    }
  }

  // ----- FormatIndexesMessage

  function Texts(idxs: seq<int>): (r: seq<string>)
    ensures |r| == |idxs|
  {
    seq(|idxs|, i requires 0 <= i < |idxs| => FormatInt(idxs[i]))
  }

  const SEPARATOR := ", "

  function Joined(parts: seq<string>): string {
    if parts == [] then "" else if |parts| == 1 then parts[0]
    else Joined(parts[..|parts| - 1]) + SEPARATOR + parts[|parts| - 1]
  }

  /** A template: absent, or a text with a gap that may fail to be filled. */
  type Template = Option<string -> Option<string>>

  function FormatMessage(tmpl: Template, value: string): Option<string> {
    if tmpl.Some? then tmpl.value(value) else None
  }

  /** Nothing to say about no index; one index and several have different templates. */
  method FormatIndexesMessage(idxs: seq<int>, singleMsgTmpl: Template, mulMsgTmpl: Template)
    returns (msg: Option<string>)
    ensures idxs == [] ==> msg == Some("")
    ensures |idxs| == 1 ==> msg == FormatMessage(singleMsgTmpl, FormatInt(idxs[0]))
    ensures |idxs| > 1 ==> msg == FormatMessage(mulMsgTmpl, Joined(Texts(idxs)))
    ensures |idxs| == 1 ==> msg == if singleMsgTmpl.Some? then singleMsgTmpl.value(FormatInt(idxs[0])) else None
    ensures |idxs| > 1 ==> msg == if mulMsgTmpl.Some? then mulMsgTmpl.value(Joined(Texts(idxs))) else None
  {
    msg := Some("");
    if |idxs| > 0 {
      var tmpl := if |idxs| == 1 then singleMsgTmpl else mulMsgTmpl;
      var sb, isFirst := "", true;
      for k := 0 to |idxs|
        invariant isFirst <==> k == 0
        invariant sb == Joined(Texts(idxs[..k]))
      {
        if !isFirst { sb := sb + SEPARATOR; }
        isFirst := false;
        sb := sb + FormatInt(idxs[k]);
        assert Texts(idxs[..k + 1]) == Texts(idxs[..k]) + [FormatInt(idxs[k])];
        assert Texts(idxs[..k + 1])[..k] == Texts(idxs[..k]);
      }
      assert idxs[..|idxs|] == idxs;
      msg := FormatMessage(tmpl, sb);
    }
  }

  /** The text cut at every separator. */
  function Cut(s: string): (r: seq<string>)
    ensures r != []
  {
    if s == "" then [""]
    else if |s| >= 2 && s[..2] == ", " then [""] + Cut(s[2..])
    else var r := Cut(s[1..]); [[s[0]] + r[0]] + r[1..]
  }

  lemma {:induction false} CutOff(a: string, rest: string)
    requires ',' !in a
    ensures Cut(a) == [a] && Cut(a + SEPARATOR + rest) == [a] + Cut(rest)
    decreases |a|
  {
    if a == "" {
      assert (a + SEPARATOR + rest)[..2] == SEPARATOR && (a + SEPARATOR + rest)[2..] == rest;
    } else {
      var s := a + SEPARATOR + rest;
      assert ',' !in a[1..] && s[1..] == a[1..] + SEPARATOR + rest && s[0] == a[0] != ',';
      CutOff(a[1..], rest);
      assert a == [a[0]] + a[1..];
      assert s[..2][0] != SEPARATOR[0] && (|a| >= 2 ==> a[..2][0] != SEPARATOR[0]);
    }
  }

  lemma {:induction false} JoinedFromFront(parts: seq<string>)
    requires |parts| > 1
    ensures Joined(parts) == parts[0] + SEPARATOR + Joined(parts[1..])
    decreases |parts|
  {
    var k := |parts| - 1;
    if k == 1 {
      assert parts[..1] == [parts[0]] && parts[1..] == [parts[1]];
    } else {
      JoinedFromFront(parts[..k]);
      assert parts[..k][1..] == parts[1..][..k - 1];
    }
  }

  lemma {:induction false} CutJoined(parts: seq<string>)
    requires parts != [] && forall i :: 0 <= i < |parts| ==> ',' !in parts[i]
    ensures Cut(Joined(parts)) == parts
    decreases |parts|
  {
    if |parts| == 1 {
      CutOff(parts[0], "");
    } else {
      JoinedFromFront(parts);
      CutOff(parts[0], Joined(parts[1..]));
      CutJoined(parts[1..]);
    }
  }

  /** Cutting the joined text and parsing the pieces gives the indexes back. */
  lemma IndexesRoundTrip(idxs: seq<int>)
    requires idxs != [] && forall i :: 0 <= i < |idxs| ==> INT64_MIN <= idxs[i] <= INT64_MAX
    ensures var pieces := Cut(Joined(Texts(idxs)));
            && |pieces| == |idxs|
            && forall i :: 0 <= i < |idxs| ==> ParseInt(pieces[i]) == Parsed(idxs[i], true)
  {
    forall i | 0 <= i < |idxs| ensures ',' !in Texts(idxs)[i] && ParseInt(Texts(idxs)[i]) == Parsed(idxs[i], true) {
      NoComma(idxs[i]);
      FormatIntRoundTrip(idxs[i]);
    }
    CutJoined(Texts(idxs));
  }

  lemma NoComma(n: int)
    ensures ',' !in FormatInt(n)
  {
    FormatNatDigits(if n < 0 then -n else n);
  }
}
