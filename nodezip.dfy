/**
 * The city index of the zip-code service: records are grouped by their
 * lower-cased city name, each group keeping the records' original order,
 * and two routes answer from the index and greet by name.
 */
module NodeZip {

  /** A record of the zip list; only `city` is read by the index. */
  datatype ZipRecord = ZipRecord(zip: string, city: string, state: string)

  // ---------------------------------------------------------------------
  // Lower-casing (ASCII letters only)

  function LowerChar(c: char): char {
    if 'A' <= c <= 'Z' then (c as int + 32) as char else c
  }

  /** toLowerCase, letter by letter. */
  function Lower(s: string): (r: string)
    ensures |r| == |s|
    ensures forall i :: 0 <= i < |s| ==> r[i] == LowerChar(s[i])
  {
    if s == [] then [] else [LowerChar(s[0])] + Lower(s[1..])
  }

  /** a and b spell the same word, ignoring the case of ASCII letters. */
  predicate SameUpToCase(a: string, b: string) {
    |a| == |b| && forall i :: 0 <= i < |a| ==> LowerChar(a[i]) == LowerChar(b[i])
  }

  lemma LowerSameUpToCase(a: string, b: string)
    ensures SameUpToCase(a, b) <==> Lower(a) == Lower(b)
  {
    if Lower(a) == Lower(b) {
      assert forall i :: 0 <= i < |a| ==> Lower(a)[i] == Lower(b)[i];
    }
  }

  // ---------------------------------------------------------------------
  // The index

  /** The records whose lower-cased city is `key`, in input order. */
  function Bucket(zips: seq<ZipRecord>, key: string): (b: seq<ZipRecord>)
    ensures forall r :: r in b ==> r in zips && Lower(r.city) == key
  {
    if zips == [] then []
    else
      var init, last := zips[..|zips| - 1], zips[|zips| - 1];
      Bucket(init, key) + (if Lower(last.city) == key then [last] else [])
  }

  /** The lower-cased cities of the records. */
  ghost function Cities(zips: seq<ZipRecord>): set<string> {
    set r | r in zips :: Lower(r.city)
  }

  /** The index the fold is meant to build: one bucket per lower-cased city. */
  ghost function CityIndex(zips: seq<ZipRecord>): map<string, seq<ZipRecord>> {
    map k | k in Cities(zips) :: Bucket(zips, k)
  }

  /** The cities in the order their first record appears. */
  function CityKeys(zips: seq<ZipRecord>): (keys: seq<string>)
    ensures forall i, j :: 0 <= i < j < |keys| ==> keys[i] != keys[j]
    ensures forall k :: k in keys <==> exists r :: r in zips && Lower(r.city) == k
  {
    if zips == [] then []
    else
      var init, last := zips[..|zips| - 1], zips[|zips| - 1];
      var keys := CityKeys(init);
      assert forall r :: r in zips <==> r in init || r == last;
      if Lower(last.city) in keys then keys else keys + [Lower(last.city)]
  }

  /** A non-empty bucket belongs to a city some record has. */
  lemma BucketHasCity(zips: seq<ZipRecord>, key: string)
    ensures Bucket(zips, key) != [] ==> key in Cities(zips)
  {
    var b := Bucket(zips, key);
    if b != [] {
      assert b[0] in b;
      assert Lower(b[0].city) in Cities(zips);
    }
  }

  lemma BucketSnoc(zips: seq<ZipRecord>, r: ZipRecord, key: string)
    ensures Bucket(zips + [r], key) == Bucket(zips, key) + (if Lower(r.city) == key then [r] else [])
  {
    assert (zips + [r])[..|zips + [r]| - 1] == zips;
  }

  lemma CitiesSnoc(zips: seq<ZipRecord>, r: ZipRecord)
    ensures Cities(zips + [r]) == Cities(zips) + {Lower(r.city)}
  {
    assert forall x :: x in zips + [r] <==> x in zips || x == r;
  }

  /** Adding one record extends the bucket of its own city and no other. */
  lemma CityIndexSnoc(zips: seq<ZipRecord>, r: ZipRecord)
    ensures var key, before := Lower(r.city), CityIndex(zips);
      CityIndex(zips + [r]) == before[key := (if key in before then before[key] else []) + [r]]
  {
    var key, before, after := Lower(r.city), CityIndex(zips), CityIndex(zips + [r]);
    var expected := before[key := (if key in before then before[key] else []) + [r]];
    CitiesSnoc(zips, r);
    assert after.Keys == expected.Keys;
    forall k | k in after
      ensures after[k] == expected[k]
    {
      BucketSnoc(zips, r, k);
      if k == key && key !in before {
        BucketHasCity(zips, key);
      }
    }
  }

  lemma IndexStep(index: map<string, seq<ZipRecord>>, zips: seq<ZipRecord>, i: nat)
    requires i < |zips| && index == CityIndex(zips[..i])
    ensures var key := Lower(zips[i].city);
      CityIndex(zips[..i + 1]) == index[key := (if key in index then index[key] else []) + [zips[i]]]
  {
    assert zips[..i + 1] == zips[..i] + [zips[i]];
    CityIndexSnoc(zips[..i], zips[i]);
  }

  /**
   * The reduce over the records: each record is pushed onto the bucket of
   * its lower-cased city, the bucket being created empty on first use.
   */
  method BuildIndex(zips: seq<ZipRecord>) returns (index: map<string, seq<ZipRecord>>)
    ensures index == CityIndex(zips)
  {
    index := map[];
    for i := 0 to |zips|
      invariant index == CityIndex(zips[..i])
    {
      var record := zips[i];
      var cityLower := Lower(record.city);
      IndexStep(index, zips, i);
      if cityLower !in index {
        index := index[cityLower := []];
      }
      index := index[cityLower := index[cityLower] + [record]];
    }
    assert zips[..|zips|] == zips;
  }

  /** A city is a key exactly when some record has it, lower-cased. */
  lemma IndexKeys(zips: seq<ZipRecord>, key: string)
    ensures key in CityIndex(zips) <==> exists i :: 0 <= i < |zips| && Lower(zips[i].city) == key
  {
    if key in CityIndex(zips) {
      var r :| r in zips && Lower(r.city) == key;
      var i :| 0 <= i < |zips| && zips[i] == r;
    }
  }

  /** Every record is in the bucket of its own city. */
  lemma {:induction false} BucketMember(zips: seq<ZipRecord>, r: ZipRecord)
    requires r in zips
    ensures r in Bucket(zips, Lower(r.city))
  {
    var init, last := zips[..|zips| - 1], zips[|zips| - 1];
    assert zips == init + [last];
    if r != last {
      BucketMember(init, r);
    }
  }

  /** No bucket is empty: a key is created only with its first record. */
  lemma NoEmptyBucket(zips: seq<ZipRecord>, key: string)
    requires key in CityIndex(zips)
    ensures CityIndex(zips)[key] != []
  {
    var r :| r in zips && Lower(r.city) == key;
    BucketMember(zips, r);
  }

  /**
   * Every record lands in exactly one bucket: a bucket holds each record of
   * its city as often as the input does, and no record of another city.
   */
  lemma {:induction false} BucketCount(zips: seq<ZipRecord>, key: string, r: ZipRecord)
    ensures multiset(Bucket(zips, key))[r] == if Lower(r.city) == key then multiset(zips)[r] else 0
  {
    if zips != [] {
      var init, last := zips[..|zips| - 1], zips[|zips| - 1];
      BucketCount(init, key, r);
      assert zips == init + [last];
    }
  }

  lemma InitOfAppend<T>(a: seq<T>, b: seq<T>)
    requires b != []
    ensures (a + b)[..|a + b| - 1] == a + b[..|b| - 1]
  {
  }

  /** Buckets keep input order: the bucket of a concatenation concatenates the buckets. */
  lemma {:induction false} BucketAppend(a: seq<ZipRecord>, b: seq<ZipRecord>, key: string)
    ensures Bucket(a + b, key) == Bucket(a, key) + Bucket(b, key)
    decreases |b|
  {
    if b == [] {
      assert a + b == a;
    } else {
      var init, last := b[..|b| - 1], b[|b| - 1];
      var added := if Lower(last.city) == key then [last] else [];
      BucketAppend(a, init, key);
      InitOfAppend(a, b);
      assert Bucket(a + b, key) == Bucket(a + init, key) + added;
      assert Bucket(b, key) == Bucket(init, key) + added;
    }
  }

  /** The total size of the buckets of `keys`. */
  function BucketSizes(zips: seq<ZipRecord>, keys: seq<string>): nat {
    if keys == [] then 0
    else BucketSizes(zips, keys[..|keys| - 1]) + |Bucket(zips, keys[|keys| - 1])|
  }

  lemma {:induction false} BucketSizesSnoc(zips: seq<ZipRecord>, r: ZipRecord, keys: seq<string>)
    requires forall i, j :: 0 <= i < j < |keys| ==> keys[i] != keys[j]
    ensures BucketSizes(zips + [r], keys) == BucketSizes(zips, keys) + (if Lower(r.city) in keys then 1 else 0)
  {
    assert (zips + [r])[..|zips + [r]| - 1] == zips;
    if keys != [] {
      var init := keys[..|keys| - 1];
      BucketSizesSnoc(zips, r, init);
      assert Lower(r.city) in keys <==> Lower(r.city) in init || Lower(r.city) == keys[|keys| - 1];
    }
  }

  /** The records whose city is among `keys`. */
  function Covered(zips: seq<ZipRecord>, keys: seq<string>): nat {
    if zips == [] then 0
    else Covered(zips[..|zips| - 1], keys) + (if Lower(zips[|zips| - 1].city) in keys then 1 else 0)
  }

  lemma {:induction false} BucketSizesCovered(zips: seq<ZipRecord>, keys: seq<string>)
    requires forall i, j :: 0 <= i < j < |keys| ==> keys[i] != keys[j]
    ensures BucketSizes(zips, keys) == Covered(zips, keys)
  {
    if zips == [] {
      BucketSizesEmpty(keys);
    } else {
      var init, last := zips[..|zips| - 1], zips[|zips| - 1];
      BucketSizesCovered(init, keys);
      assert zips == init + [last];
      BucketSizesSnoc(init, last, keys);
    }
  }

  lemma {:induction false} BucketSizesEmpty(keys: seq<string>)
    ensures BucketSizes([], keys) == 0
  {
    if keys != [] {
      BucketSizesEmpty(keys[..|keys| - 1]);
    }
  }

  lemma {:induction false} CoveredAll(zips: seq<ZipRecord>, keys: seq<string>)
    requires forall r :: r in zips ==> Lower(r.city) in keys
    ensures Covered(zips, keys) == |zips|
  {
    if zips != [] {
      var init := zips[..|zips| - 1];
      assert forall r :: r in init ==> r in zips;
      CoveredAll(init, keys);
    }
  }

  /** The bucket sizes add up to the number of records. */
  lemma BucketSizesTotal(zips: seq<ZipRecord>)
    ensures BucketSizes(zips, CityKeys(zips)) == |zips|
  {
    BucketSizesCovered(zips, CityKeys(zips));
    CoveredAll(zips, CityKeys(zips));
  }

  // ---------------------------------------------------------------------
  // The routes

  datatype Reply = Json(records: seq<ZipRecord>) | Status(code: nat, body: string)

  /** GET /zips/city/:cityName: the bucket of the lower-cased name, or 404. */
  function LookupCity(index: map<string, seq<ZipRecord>>, cityName: string): (r: Reply)
    ensures r.Json? <==> Lower(cityName) in index
    ensures r.Json? ==> r.records == index[Lower(cityName)]
    ensures r.Status? ==> r.code == 404 && r.body == "invalid city name"
  {
    var key := Lower(cityName);
    if key in index then Json(index[key]) else Status(404, "invalid city name")
  }

  /** On the built index, a known city gets its records in input order and an unknown one a 404. */
  lemma LookupCityCorrect(zips: seq<ZipRecord>, cityName: string)
    ensures var key := Lower(cityName);
      LookupCity(CityIndex(zips), cityName) ==
        if exists i :: 0 <= i < |zips| && Lower(zips[i].city) == key then Json(Bucket(zips, key))
        else Status(404, "invalid city name")
  {
    IndexKeys(zips, Lower(cityName));
  }

  /** Names that differ only in letter case get the same reply. */
  lemma LookupCaseInsensitive(index: map<string, seq<ZipRecord>>, a: string, b: string)
    requires SameUpToCase(a, b)
    ensures LookupCity(index, a) == LookupCity(index, b)
  {
    LowerSameUpToCase(a, b);
  }

  /** GET /hello/:name. */
  function Hello(name: string): (r: string)
    ensures |r| == |name| + 7
    ensures r[..6] == "Hello " && r[6..|r| - 1] == name && r[|r| - 1] == '!'
  {
    "Hello " + name + "!"
  }

  /** Different names get different greetings. */
  lemma HelloInjective(a: string, b: string)
    requires Hello(a) == Hello(b)
    ensures a == b
  {
    assert a == Hello(a)[6..|Hello(a)| - 1];
  }
}
