/** The advisory lock keys of a fingerprint: which keys there are, that they come
    sorted, and that any two linked fingerprints have one in common. */
module LockKeys {
  import opened Fingerprints
  import opened Options
  import opened Words

  // ----- string order -----

  predicate Le(a: string, b: string) {
    if a == [] then true
    else if b == [] then false
    else a[0] < b[0] || (a[0] == b[0] && Le(a[1..], b[1..]))
  }

  predicate Less(a: string, b: string) {
    Le(a, b) && a != b
  }

  lemma {:induction false} LeTotal(a: string, b: string)
    ensures Le(a, b) || Le(b, a)
  {
    if a != [] && b != [] && a[0] == b[0] {
      LeTotal(a[1..], b[1..]);
    }
  }

  lemma {:induction false} LeTransitive(a: string, b: string, c: string)
    requires Le(a, b) && Le(b, c)
    ensures Le(a, c)
  {
    if a != [] && b != [] && c != [] && a[0] == b[0] == c[0] {
      LeTransitive(a[1..], b[1..], c[1..]);
    }
  }

  lemma {:induction false} LeAntisymmetric(a: string, b: string)
    requires Le(a, b) && Le(b, a)
    ensures a == b
  {
    if a != [] && b != [] {
      LeAntisymmetric(a[1..], b[1..]);
      assert a == [a[0]] + a[1..] && b == [b[0]] + b[1..];
    }
  }

  predicate Sorted(s: seq<string>) {
    forall i, j :: 0 <= i < j < |s| ==> Le(s[i], s[j])
  }

  function Insert(x: string, s: seq<string>): seq<string> {
    if s == [] || Le(x, s[0]) then [x] + s else [s[0]] + Insert(x, s[1..])
  }

  function Sort(s: seq<string>): seq<string> {
    if s == [] then [] else Insert(s[0], Sort(s[1..]))
  }

  lemma {:induction false} InsertSorted(x: string, s: seq<string>)
    requires Sorted(s)
    ensures Sorted(Insert(x, s))
    ensures forall k :: k in Insert(x, s) <==> k == x || k in s
  {
    if s == [] {
    } else if Le(x, s[0]) {
      forall j | 0 <= j < |s|
        ensures Le(x, s[j])
      {
        if j > 0 {
          LeTransitive(x, s[0], s[j]);
        }
      }
    } else {
      LeTotal(x, s[0]);
      InsertSorted(x, s[1..]);
      var rest := Insert(x, s[1..]);
      forall j | 0 <= j < |rest|
        ensures Le(s[0], rest[j])
      {
        assert rest[j] == x || rest[j] in s[1..];
      }
    }
  }

  lemma {:induction false} InsertMultiset(x: string, s: seq<string>)
    ensures multiset(Insert(x, s)) == multiset(s) + multiset{x}
  {
    if s != [] && !Le(x, s[0]) {
      InsertMultiset(x, s[1..]);
      assert s == [s[0]] + s[1..];
    }
  }

  /** Sorting yields the same keys, each as often, in ascending order. */
  lemma {:induction false} SortSorted(s: seq<string>)
    ensures Sorted(Sort(s)) && multiset(Sort(s)) == multiset(s)
    ensures forall k :: k in Sort(s) <==> k in s
  {
    if s != [] {
      SortSorted(s[1..]);
      assert s == [s[0]] + s[1..];
      InsertSorted(s[0], Sort(s[1..]));
      InsertMultiset(s[0], Sort(s[1..]));
    }
  }

  // ----- the keys -----

  function Digit(n: nat): char
    requires n < 10
  {
    "0123456789"[n]
  }

  function Decimal(n: nat): string {
    if n < 10 then [Digit(n)] else Decimal(n / 10) + [Digit(n % 10)]
  }

  /** A key as fmt.Sprintf("lsh:%s:%d:%d", …) writes it. */
  function BandKey(kind: string, band: nat, bucket: nat): string {
    "lsh:" + kind + ":" + Decimal(band) + ":" + Decimal(bucket)
  }

  function BandKeys(kind: string, hash: uint64, n: nat): seq<string>
    requires n <= LSH_BANDS
  {
    if n == 0 || hash == 0 then [] else BandKeys(kind, hash, n - 1) + [BandKey(kind, n - 1, Bands(hash)[n - 1])]
  }

  function Unsorted(fp: Fingerprint): seq<string> {
    (if fp.sha != "" then ["sha:" + fp.sha] else [])
    + (if fp.textNorm != "" then ["txt:" + fp.textNorm] else [])
    + (if fp.hasText then BandKeys("simhash", fp.simHash, LSH_BANDS)
       else if fp.hasVisual then BandKeys("phash", fp.pHash, LSH_BANDS)
       else [])
  }

  function Keys(fp: Fingerprint): seq<string> {
    Sort(Unsorted(fp))
  }

  method AddBands(keys: seq<string>, kind: string, hash: uint64) returns (all: seq<string>)
    ensures all == keys + BandKeys(kind, hash, LSH_BANDS)
  {
    all := keys;
    if hash == 0 {
      assert keys + BandKeys(kind, hash, LSH_BANDS) == keys;
      return;
    }
    var bands := Bands(hash);
    for i := 0 to |bands|
      invariant all == keys + BandKeys(kind, hash, i)
    {
      all := all + [BandKey(kind, i, bands[i])];
    }
  }

  method FingerprintLockKeys(fp: Fingerprint) returns (keys: seq<string>)
    ensures keys == Keys(fp)
    ensures Sorted(keys)
  {
    keys := [];
    if fp.sha != "" {
      keys := keys + ["sha:" + fp.sha];
    }
    if fp.textNorm != "" {
      keys := keys + ["txt:" + fp.textNorm];
    }
    if fp.hasText {
      keys := AddBands(keys, "simhash", fp.simHash);
    } else if fp.hasVisual {
      keys := AddBands(keys, "phash", fp.pHash);
    }
    assert keys == Unsorted(fp);
    SortSorted(keys);
    keys := Sort(keys);
  }

  lemma {:induction false} BandKeyListed(kind: string, hash: uint64, n: nat, i: nat)
    requires i < n <= LSH_BANDS && hash != 0
    ensures BandKey(kind, i, Bands(hash)[i]) in BandKeys(kind, hash, n)
  {
    if i < n - 1 {
      BandKeyListed(kind, hash, n - 1, i);
    }
  }

  lemma NearSharesKey(kind: string, a: uint64, b: uint64) returns (key: string)
    requires Near(a, b)
    ensures key in BandKeys(kind, a, LSH_BANDS) && key in BandKeys(kind, b, LSH_BANDS)
  {
    NearShareBand(a, b);
    var i :| 0 <= i < LSH_BANDS && Bands(a)[i] == Bands(b)[i];
    BandKeyListed(kind, a, LSH_BANDS, i);
    BandKeyListed(kind, b, LSH_BANDS, i);
    key := BandKey(kind, i, Bands(a)[i]);
  }

  /** Whether the searches for a could come across a source with fingerprint b,
      pages aside. */
  predicate Related(a: Fingerprint, b: Fingerprint) {
    || a.sha == b.sha
    || (a.hasText && a.textNorm == b.textNorm)
    || (a.hasText && b.hasText && Near(a.simHash, b.simHash))
    || (!a.hasText && Near(a.pHash, b.pHash))
  }

  lemma LinkedIsRelated(a: Fingerprint, b: Fingerprint)
    requires WellFormed(a) && WellFormed(b) && Link(a, b).Some?
    ensures Related(a, b)
  {
  }

  /** Two fingerprints of which one search finds the other share a lock key; so do, in
      particular, any two linked ones. */
  lemma RelatedShareKey(a: Fingerprint, b: Fingerprint) returns (key: string)
    requires WellFormed(a) && WellFormed(b) && a.sha != "" && b.sha != ""
    requires Related(a, b)
    ensures key in Keys(a) && key in Keys(b)
  {
    SortSorted(Unsorted(a));
    SortSorted(Unsorted(b));
    if a.sha == b.sha {
      key := "sha:" + a.sha;
    } else if a.hasText && a.textNorm == b.textNorm {
      key := "txt:" + a.textNorm;
    } else if a.hasText {
      key := NearSharesKey("simhash", a.simHash, b.simHash);
    } else {
      key := NearSharesKey("phash", a.pHash, b.pHash);
    }
  }

  lemma LinkedShareKey(a: Fingerprint, b: Fingerprint)
    requires WellFormed(a) && WellFormed(b) && a.sha != "" && b.sha != ""
    requires Link(a, b).Some?
    ensures exists key :: key in Keys(a) && key in Keys(b)
  {
    LinkedIsRelated(a, b);
    var key := RelatedShareKey(a, b);
  }

  // ----- who shares a key -----

  lemma DigitValue(m: nat, n: nat)
    requires m < 10 && n < 10
    ensures Digit(m) == Digit(n) ==> m == n
  {
    assert forall i, j :: 0 <= i < j < 10 ==> "0123456789"[i] != "0123456789"[j];
  }

  lemma {:induction false} DecimalInjective(m: nat, n: nat)
    requires Decimal(m) == Decimal(n)
    ensures m == n
  {
    var s := Decimal(m);
    if m < 10 && n < 10 {
      DigitValue(m, n);
    } else if m >= 10 && n >= 10 {
      assert s[..|s| - 1] == Decimal(m / 10) == Decimal(n / 10);
      DecimalInjective(m / 10, n / 10);
      DigitValue(m % 10, n % 10);
    } else {
      DecimalNotEmpty(m / 10);
      DecimalNotEmpty(n / 10);
    }
  }

  lemma DecimalNotEmpty(n: nat)
    ensures Decimal(n) != []
  {
  }

  /** The bucket of a band key, behind a prefix and a band of one digit. */
  lemma BandKeyParts(kind: string, band: nat, bucket: nat)
    requires band < 10
    ensures var key := BandKey(kind, band, bucket);
            && |key| >= |kind| + 7 && key[..4] == "lsh:" && key[4..4 + |kind|] == kind
            && key[5 + |kind|] == Digit(band) && key[7 + |kind|..] == Decimal(bucket)
  {
    assert Decimal(band) == [Digit(band)];
    var head := "lsh:" + kind + ":" + [Digit(band)] + ":";
    assert BandKey(kind, band, bucket) == head + Decimal(bucket);
    assert |head| == 7 + |kind|;
    assert head[..4] == "lsh:" && head[4..4 + |kind|] == kind && head[5 + |kind|] == Digit(band);
  }

  lemma SameBandKey(kind: string, i: nat, x: nat, j: nat, y: nat)
    requires i < 10 && j < 10 && BandKey(kind, i, x) == BandKey(kind, j, y)
    ensures i == j && x == y
  {
    BandKeyParts(kind, i, x);
    BandKeyParts(kind, j, y);
    DigitValue(i, j);
    DecimalInjective(x, y);
  }

  lemma KindsApart(i: nat, x: nat, j: nat, y: nat)
    requires i < 10 && j < 10
    ensures BandKey("simhash", i, x) != BandKey("phash", j, y)
  {
    BandKeyParts("simhash", i, x);
    BandKeyParts("phash", j, y);
    var a, b := BandKey("simhash", i, x), BandKey("phash", j, y);
    assert a[4..11][0] == 's' && b[4..9][0] == 'p';
    assert a[4] == 's' && b[4] == 'p';
  }

  /** Some band of the hash gives this key. */
  ghost predicate BandGives(kind: string, hash: uint64, n: nat, key: string) {
    hash != 0 && exists i: nat :: i < n <= LSH_BANDS && key == BandKey(kind, i, Bands(hash)[i])
  }

  lemma {:induction false} BandKeysMeaning(kind: string, hash: uint64, n: nat, key: string)
    requires n <= LSH_BANDS
    ensures key in BandKeys(kind, hash, n) <==> BandGives(kind, hash, n, key)
  {
    if hash != 0 && n > 0 {
      BandKeysMeaning(kind, hash, n - 1, key);
      if i: nat :| i < n && key == BandKey(kind, i, Bands(hash)[i]) {
        assert i < n - 1 ==> BandGives(kind, hash, n - 1, key);
      }
      if BandGives(kind, hash, n - 1, key) {
        var i: nat :| i < n - 1 && key == BandKey(kind, i, Bands(hash)[i]);
        assert BandGives(kind, hash, n, key);
      }
      assert key == BandKey(kind, n - 1, Bands(hash)[n - 1]) ==> BandGives(kind, hash, n, key);
    }
  }

  /** Some of the four bands agree. */
  predicate BandAgrees(a: uint64, b: uint64) {
    a != 0 && b != 0 && exists i :: 0 <= i < LSH_BANDS && Bands(a)[i] == Bands(b)[i]
  }

  lemma SharedBandKey(kind: string, a: uint64, b: uint64, key: string)
    requires BandGives(kind, a, LSH_BANDS, key) && BandGives(kind, b, LSH_BANDS, key)
    ensures BandAgrees(a, b)
  {
    var i: nat :| i < LSH_BANDS && key == BandKey(kind, i, Bands(a)[i]);
    var j: nat :| j < LSH_BANDS && key == BandKey(kind, j, Bands(b)[j]);
    SameBandKey(kind, i, Bands(a)[i], j, Bands(b)[j]);
  }

  lemma AgreeingBandKey(kind: string, a: uint64, b: uint64) returns (key: string)
    requires BandAgrees(a, b)
    ensures key in BandKeys(kind, a, LSH_BANDS) && key in BandKeys(kind, b, LSH_BANDS)
  {
    var i :| 0 <= i < LSH_BANDS && Bands(a)[i] == Bands(b)[i];
    BandKeyListed(kind, a, LSH_BANDS, i);
    BandKeyListed(kind, b, LSH_BANDS, i);
    key := BandKey(kind, i, Bands(a)[i]);
  }

  /** The kind of hash that a fingerprint is indexed by, and the hash; 0 for none. */
  function IndexKind(fp: Fingerprint): string {
    if fp.hasText then "simhash" else "phash"
  }

  function IndexHash(fp: Fingerprint): uint64 {
    if fp.hasText then fp.simHash else if fp.hasVisual then fp.pHash else 0
  }

  /** A key other than those of the bands. */
  predicate PlainKey(fp: Fingerprint, key: string) {
    (fp.sha != "" && key == "sha:" + fp.sha) || (fp.textNorm != "" && key == "txt:" + fp.textNorm)
  }

  lemma BandPart(fp: Fingerprint, key: string)
    ensures key in Unsorted(fp) <==> PlainKey(fp, key) || key in BandKeys(IndexKind(fp), IndexHash(fp), LSH_BANDS)
  {
    if !fp.hasText && !fp.hasVisual {
      assert BandKeys(IndexKind(fp), IndexHash(fp), LSH_BANDS) == [];
    }
  }

  lemma KeyMeaning(fp: Fingerprint, key: string)
    ensures key in Keys(fp) <==> PlainKey(fp, key) || BandGives(IndexKind(fp), IndexHash(fp), LSH_BANDS, key)
  {
    SortSorted(Unsorted(fp));
    BandPart(fp, key);
    BandKeysMeaning(IndexKind(fp), IndexHash(fp), LSH_BANDS, key);
  }

  lemma BandKeyStart(kind: string, hash: uint64, key: string)
    ensures BandGives(kind, hash, LSH_BANDS, key) ==> |key| > 0 && key[0] == 'l'
  {
    if hash != 0 {
      if i: nat :| i < LSH_BANDS && key == BandKey(kind, i, Bands(hash)[i]) {
        BandKeyParts(kind, i, Bands(hash)[i]);
        assert key[..4][0] == 'l';
      }
    }
  }

  lemma PlainKeyStart(fp: Fingerprint, key: string)
    ensures PlainKey(fp, key) ==> |key| > 0 && (key[0] == 's' || key[0] == 't')
  {
    assert ("sha:" + fp.sha)[0] == 's' && ("txt:" + fp.textNorm)[0] == 't';
  }

  lemma SameTail(head: string, s: string, t: string)
    requires head + s == head + t
    ensures s == t
  {
    assert (head + s)[|head|..] == s && (head + t)[|head|..] == t;
  }

  /** The fingerprints have a stored value or a band of the same kind of hash in common. */
  predicate Meet(a: Fingerprint, b: Fingerprint) {
    || (a.sha == b.sha && a.sha != "")
    || (a.textNorm == b.textNorm && a.textNorm != "")
    || (a.hasText && b.hasText && BandAgrees(a.simHash, b.simHash))
    || (!a.hasText && !b.hasText && a.hasVisual && b.hasVisual && BandAgrees(a.pHash, b.pHash))
  }

  lemma BandsMeet(a: Fingerprint, b: Fingerprint, key: string)
    requires BandGives(IndexKind(a), IndexHash(a), LSH_BANDS, key) && BandGives(IndexKind(b), IndexHash(b), LSH_BANDS, key)
    ensures Meet(a, b)
  {
    if IndexKind(a) == IndexKind(b) {
      SharedBandKey(IndexKind(a), IndexHash(a), IndexHash(b), key);
    } else {
      var i: nat :| i < LSH_BANDS && key == BandKey(IndexKind(a), i, Bands(IndexHash(a))[i]);
      var j: nat :| j < LSH_BANDS && key == BandKey(IndexKind(b), j, Bands(IndexHash(b))[j]);
      if a.hasText {
        KindsApart(i, Bands(IndexHash(a))[i], j, Bands(IndexHash(b))[j]);
      } else {
        KindsApart(j, Bands(IndexHash(b))[j], i, Bands(IndexHash(a))[i]);
      }
    }
  }

  lemma SharedMeet(a: Fingerprint, b: Fingerprint, key: string)
    requires key in Keys(a) && key in Keys(b)
    ensures Meet(a, b)
  {
    KeyMeaning(a, key);
    KeyMeaning(b, key);
    BandKeyStart(IndexKind(a), IndexHash(a), key);
    BandKeyStart(IndexKind(b), IndexHash(b), key);
    PlainKeyStart(a, key);
    PlainKeyStart(b, key);
    if PlainKey(a, key) && PlainKey(b, key) {
      PlainMeet(a, b, key);
    } else {
      BandsMeet(a, b, key);
    }
  }

  lemma PlainMeet(a: Fingerprint, b: Fingerprint, key: string)
    requires PlainKey(a, key) && PlainKey(b, key)
    ensures Meet(a, b)
  {
    assert ("sha:" + a.sha)[0] == 's' && ("txt:" + a.textNorm)[0] == 't';
    assert ("sha:" + b.sha)[0] == 's' && ("txt:" + b.textNorm)[0] == 't';
    if key[0] == 's' {
      SameTail("sha:", a.sha, b.sha);
    } else {
      SameTail("txt:", a.textNorm, b.textNorm);
    }
  }

  lemma MeetingPlainKey(a: Fingerprint, b: Fingerprint) returns (key: string)
    requires (a.sha == b.sha && a.sha != "") || (a.textNorm == b.textNorm && a.textNorm != "")
    ensures PlainKey(a, key) && PlainKey(b, key)
  {
    key := if a.sha == b.sha && a.sha != "" then "sha:" + a.sha else "txt:" + a.textNorm;
  }

  lemma MeetingKey(a: Fingerprint, b: Fingerprint) returns (key: string)
    requires Meet(a, b)
    ensures key in Keys(a) && key in Keys(b)
  {
    if (a.sha == b.sha && a.sha != "") || (a.textNorm == b.textNorm && a.textNorm != "") {
      key := MeetingPlainKey(a, b);
    } else {
      key := AgreeingBandKey(IndexKind(a), IndexHash(a), IndexHash(b));
      BandKeysMeaning(IndexKind(a), IndexHash(a), LSH_BANDS, key);
      BandKeysMeaning(IndexKind(b), IndexHash(b), LSH_BANDS, key);
    }
    KeyMeaning(a, key);
    KeyMeaning(b, key);
  }

  /** Two fingerprints share a lock key if and only if they meet: files with nothing in
      common never wait for each other's keys. */
  lemma ShareKeyIff(a: Fingerprint, b: Fingerprint)
    ensures (exists key :: key in Keys(a) && key in Keys(b)) <==> Meet(a, b)
  {
    if key :| key in Keys(a) && key in Keys(b) {
      SharedMeet(a, b, key);
    }
    if Meet(a, b) {
      var key := MeetingKey(a, b);
    }
  }
}
