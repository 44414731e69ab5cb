/**
 * The object store and `WeatherDataS3Handler`: where raw payloads, parsed
 * records and ML datasets are written, which dataset counts as the latest, and
 * the per-prefix inventory. The bucket is a map from key to bytes.
 */
module Storage {
  import opened Wrappers
  import opened Text
  import opened Numbers
  import opened Calendar
  import opened Timestamps

  newtype byte = x: int | 0 <= x < 256

  // ----- UTF-8, as `str.encode("utf-8")` writes it -----

  /** The UTF-8 bytes of one code point. */
  function EncodeChar(c: char): (bs: seq<byte>)
    ensures 1 <= |bs| <= 4
  {
    var n := c as int;
    if n < 0x80 then [n as byte]
    else if n < 0x800 then [(0xC0 + n / 64) as byte, (0x80 + n % 64) as byte]
    else if n < 0x10000 then
      [(0xE0 + n / 4096) as byte, (0x80 + n / 64 % 64) as byte, (0x80 + n % 64) as byte]
    else
      [(0xF0 + n / 262144) as byte, (0x80 + n / 4096 % 64) as byte,
       (0x80 + n / 64 % 64) as byte, (0x80 + n % 64) as byte]
  }

  /** `text.encode("utf-8")`. */
  function Utf8(text: string): (bs: seq<byte>)
    ensures |text| <= |bs| <= 4 * |text|
  {
    if text == [] then [] else EncodeChar(text[0]) + Utf8(text[1..])
  }

  /** The length of the sequence a lead byte starts. */
  function Width(lead: byte): (w: nat)
    ensures 1 <= w <= 4
  {
    if lead < 0x80 then 1 else if lead < 0xE0 then 2 else if lead < 0xF0 then 3 else 4
  }

  /** The code point a sequence of `Width(bs[0])` bytes carries. */
  function Scalar(bs: seq<byte>): int
    requires |bs| >= 1 && |bs| == Width(bs[0])
  {
    match |bs|
    case 1 => bs[0] as int
    case 2 => (bs[0] as int - 0xC0) * 64 + (bs[1] as int - 0x80)
    case 3 => (bs[0] as int - 0xE0) * 4096 + (bs[1] as int - 0x80) * 64 + (bs[2] as int - 0x80)
    case 4 => (bs[0] as int - 0xF0) * 262144 + (bs[1] as int - 0x80) * 4096
              + (bs[2] as int - 0x80) * 64 + (bs[3] as int - 0x80)
  }

  /** Reading text back from bytes; `None` when the bytes stop short or name no code point. */
  function Decode(bs: seq<byte>): Option<string>
    decreases |bs|
  {
    if bs == [] then Some([])
    else
      var w := Width(bs[0]);
      if |bs| < w then None
      else
        var n := Scalar(bs[..w]);
        if !(0 <= n < 0xD800 || 0xE000 <= n < 0x110000) then None
        else match Decode(bs[w..])
          case None => None
          case Some(rest) => Some([n as char] + rest)
  }

  /** One code point reads back from its bytes. */
  lemma DecodeEncodeChar(c: char)
    ensures Width(EncodeChar(c)[0]) == |EncodeChar(c)|
    ensures Scalar(EncodeChar(c)) == c as int
  {
    var n := c as int;
    if n < 0x80 {
    } else if n < 0x800 {
      TwoBytes(n);
    } else if n < 0x10000 {
      ThreeBytes(n);
    } else {
      FourBytes(n);
    }
  }

  lemma TwoBytes(n: int)
    requires 0x80 <= n < 0x800
    ensures 0xC0 <= 0xC0 + n / 64 < 0xE0
    ensures (n / 64) * 64 + n % 64 == n
  {
  }

  lemma ThreeBytes(n: int)
    requires 0x800 <= n < 0x10000
    ensures 0xE0 <= 0xE0 + n / 4096 < 0xF0
    ensures (n / 4096) * 4096 + (n / 64 % 64) * 64 + n % 64 == n
  {
    var q := n / 64;
    assert n == q * 64 + n % 64;
    assert q == (q / 64) * 64 + q % 64;
    assert q / 64 == n / 4096;
  }

  lemma FourBytes(n: int)
    requires 0x10000 <= n < 0x110000
    ensures 0xF0 <= 0xF0 + n / 262144 < 0x100
    ensures (n / 262144) * 262144 + (n / 4096 % 64) * 4096 + (n / 64 % 64) * 64 + n % 64 == n
  {
    var q := n / 64;
    var r := q / 64;
    assert n == q * 64 + n % 64;
    assert q == r * 64 + q % 64;
    assert r == (r / 64) * 64 + r % 64;
    assert r == n / 4096;
    assert r / 64 == n / 262144;
  }

  /** Decoding the UTF-8 of a text gives the text back. */
  lemma {:induction false} DecodeUtf8(text: string)
    ensures Decode(Utf8(text)) == Some(text)
  {
    if text != [] {
      var head, rest := EncodeChar(text[0]), Utf8(text[1..]);
      var bs := head + rest;
      DecodeEncodeChar(text[0]);
      assert bs[0] == head[0] && bs[..|head|] == head && bs[|head|..] == rest;
      DecodeUtf8(text[1..]);
      assert text == [text[0]] + text[1..];
    }
  }

  // ----- The bucket -----

  /** A body handed to `put_object`: text, stored as its UTF-8, or bytes, stored as they are. */
  datatype Body = Text(text: string) | Bytes(bytes: seq<byte>)

  function Encoded(body: Body): seq<byte> {
    match body
    case Text(t) => Utf8(t)
    case Bytes(b) => b
  }

  /** The keys of the bucket under a prefix. */
  function WithPrefix(objects: map<string, seq<byte>>, prefix: string): (keys: set<string>)
    ensures keys <= objects.Keys
    ensures forall k :: k in keys <==> k in objects && StartsWith(k, prefix)
  {
    set k | k in objects && StartsWith(k, prefix)
  }

  predicate Distinct(keys: seq<string>) {
    forall i, j :: 0 <= i < j < |keys| ==> keys[i] != keys[j]
  }

  /** A list without repetitions is as long as the set of its elements. */
  lemma {:induction false} DistinctCard(keys: seq<string>)
    requires Distinct(keys)
    ensures |set k | k in keys| == |keys|
  {
    if keys != [] {
      var init := keys[..|keys| - 1];
      DistinctCard(init);
      var last := keys[|keys| - 1];
      assert (set k | k in keys) == (set k | k in init) + {last};
      assert forall i :: 0 <= i < |init| ==> init[i] == keys[i];
      assert last !in (set k | k in init);
    }
  }

  /** The bucket: `S3StorageClient` with the network taken away. */
  class ObjectStore {
    var objects: map<string, seq<byte>>

    /**
     * `_ensure_bucket_exists`: `existing` is what `head_bucket` finds. A bucket
     * that is there is attached with everything it holds; otherwise a new,
     * empty one is created.
     */
    constructor(existing: Option<map<string, seq<byte>>>)
      ensures existing.Some? ==> objects == existing.value
      ensures existing.None? ==> objects == map[]
    {
      objects := if existing.Some? then existing.value else map[];
    }

    /** `put_object`: stores the body (text as UTF-8) under exactly the key, and returns the key. */
    method PutObject(key: string, body: Body) returns (stored: string)
      modifies this
      ensures stored == key
      ensures objects == old(objects)[key := Encoded(body)]
    {
      objects := objects[key := Encoded(body)];
      stored := key;
    }

    /** `get_object`: the bytes under the key; `None` where S3 raises `NoSuchKey`. */
    method GetObject(key: string) returns (r: Option<seq<byte>>)
      ensures key in objects <==> r.Some?
      ensures r.Some? ==> r.value == objects[key]
    {
      if key in objects {
        r := Some(objects[key]);
      } else {
        r := None;
      }
    }

    /** `list_objects`: every key under the prefix, each once, in no particular order. */
    method ListObjects(prefix: string) returns (keys: seq<string>)
      ensures forall k :: k in keys <==> k in objects && StartsWith(k, prefix)
      ensures Distinct(keys)
      ensures |keys| == |WithPrefix(objects, prefix)|
    {
      keys := [];
      var remaining := objects.Keys;
      while remaining != {}
        invariant remaining <= objects.Keys
        invariant forall k :: k in keys <==> k in objects && k !in remaining && StartsWith(k, prefix)
        invariant Distinct(keys)
        decreases |remaining|
      {
        var k :| k in remaining;
        if StartsWith(k, prefix) {
          keys := keys + [k];
        }
        remaining := remaining - {k};
      }
      DistinctCard(keys);
      assert (set k | k in keys) == WithPrefix(objects, prefix);
    }

    /** `delete_object`: the key is gone and nothing else changes. */
    method DeleteObject(key: string)
      modifies this
      ensures objects == old(objects) - {key}
    {
      objects := objects - {key};
    }
  }

  // ----- Key layout -----

  /** `strftime("%Y/%m/%d")`. */
  function DatePath(t: Timestamp): string {
    ZeroPad(t.year, 4) + "/" + ZeroPad(t.month, 2) + "/" + ZeroPad(t.day, 2)
  }

  /** `strftime("%H%M%S")`. */
  function TimeOfDay(t: Timestamp): string {
    ZeroPad(t.hour, 2) + ZeroPad(t.minute, 2) + ZeroPad(t.second, 2)
  }

  function RawKey(dataType: string, t: Timestamp): string {
    "raw/" + dataType + "/" + DatePath(t) + "/" + TimeOfDay(t) + ".txt"
  }

  function ProcessedKey(dataType: string, t: Timestamp): string {
    "processed/" + dataType + "/" + DatePath(t) + "/" + TimeOfDay(t) + ".json"
  }

  function MlKey(t: Timestamp): string {
    "ml_dataset/" + DatePath(t) + "/dataset_" + TimeOfDay(t) + ".parquet"
  }

  /** The keys `load_latest_ml_dataset` chooses among. */
  function ParquetKeys(objects: map<string, seq<byte>>): (keys: set<string>)
    ensures keys <= WithPrefix(objects, "ml_dataset/")
  {
    set k | k in objects && StartsWith(k, "ml_dataset/") && EndsWith(k, ".parquet")
  }

  /** `k` is the last of `keys` in Python's string order, as `sorted(keys)[-1]` is. */
  predicate Greatest(k: string, keys: set<string>) {
    k in keys && forall other :: other in keys ==> LexLe(other, k)
  }

  /** There is only one greatest key. */
  lemma GreatestUnique(a: string, b: string, keys: set<string>)
    requires Greatest(a, keys) && Greatest(b, keys)
    ensures a == b
  {
    LexLeAntisymmetric(a, b);
  }

  /** The counts `get_data_inventory` reports. */
  datatype Inventory = Inventory(rawData: nat, processedData: nat, mlDatasets: nat, total: nat)

  /** A handler over one bucket (`WeatherDataS3Handler`). */
  class WeatherDataHandler {
    const store: ObjectStore

    constructor(store: ObjectStore)
      ensures this.store == store
    {
      this.store := store;
    }

    /** `save_raw_weather_data`: the payload as UTF-8 under `raw/{type}/{Y/m/d}/{HMS}.txt`. */
    method SaveRawWeatherData(dataType: string, rawData: string, timestamp: Timestamp) returns (key: string)
      modifies store
      ensures key == RawKey(dataType, timestamp)
      ensures store.objects == old(store.objects)[key := Utf8(rawData)]
    {
      key := RawKey(dataType, timestamp);
      key := store.PutObject(key, Text(rawData));
    }

    /** `save_parsed_weather_data`, given the JSON text of the records, under `processed/{type}/{Y/m/d}/{HMS}.json`. */
    method SaveParsedWeatherData(dataType: string, jsonText: string, timestamp: Timestamp) returns (key: string)
      modifies store
      ensures key == ProcessedKey(dataType, timestamp)
      ensures store.objects == old(store.objects)[key := Utf8(jsonText)]
    {
      key := ProcessedKey(dataType, timestamp);
      key := store.PutObject(key, Text(jsonText));
    }

    /** `save_ml_dataset`, given the parquet bytes, under `ml_dataset/{Y/m/d}/dataset_{HMS}.parquet`. */
    method SaveMlDataset(parquet: seq<byte>, timestamp: Timestamp) returns (key: string)
      modifies store
      ensures key == MlKey(timestamp)
      ensures store.objects == old(store.objects)[key := parquet]
    {
      key := MlKey(timestamp);
      key := store.PutObject(key, Bytes(parquet));
    }

    /**
     * `load_latest_ml_dataset`: the bytes of the greatest `.parquet` key under
     * `ml_dataset/`, or `None` when there is none. `daysBack` is not used.
     */
    method LoadLatestMlDataset(daysBack: int) returns (r: Option<seq<byte>>)
      ensures r.None? <==> ParquetKeys(store.objects) == {}
      ensures r.Some? ==> exists k :: Greatest(k, ParquetKeys(store.objects)) && r.value == store.objects[k]
    {
      var keys := store.ListObjects("ml_dataset/");
      if keys == [] {
        return None;
      }
      var latest: Option<string> := None;
      var i := 0;
      while i < |keys|
        invariant 0 <= i <= |keys|
        invariant latest.None? <==> forall j :: 0 <= j < i ==> !EndsWith(keys[j], ".parquet")
        invariant latest.Some? ==> latest.value in keys[..i] && EndsWith(latest.value, ".parquet")
        invariant latest.Some? ==> forall j :: 0 <= j < i && EndsWith(keys[j], ".parquet") ==> LexLe(keys[j], latest.value)
      {
        var k := keys[i];
        LexLeReflexive(k);
        if EndsWith(k, ".parquet") {
          if latest.None? {
            latest := Some(k);
          } else {
            LexLeTotal(k, latest.value);
            if !LexLe(k, latest.value) {
              forall j | 0 <= j < i && EndsWith(keys[j], ".parquet") ensures LexLe(keys[j], k) {
                LexLeTransitive(keys[j], latest.value, k);
              }
              latest := Some(k);
            }
          }
        }
        i := i + 1;
      }
      if latest.None? {
        assert forall k :: k in ParquetKeys(store.objects) ==> k in keys;
        return None;
      }
      var best := latest.value;
      assert Greatest(best, ParquetKeys(store.objects)) by {
        forall other | other in ParquetKeys(store.objects) ensures LexLe(other, best) {
          var j :| 0 <= j < |keys| && keys[j] == other;
        }
      }
      r := store.GetObject(best);
    }

    /** `get_data_inventory`: the number of keys under each of the three prefixes, and of all keys. */
    method GetDataInventory() returns (inventory: Inventory)
      ensures inventory.rawData == |WithPrefix(store.objects, "raw/")|
      ensures inventory.processedData == |WithPrefix(store.objects, "processed/")|
      ensures inventory.mlDatasets == |WithPrefix(store.objects, "ml_dataset/")|
      ensures inventory.total == |store.objects.Keys|
      ensures inventory.rawData + inventory.processedData + inventory.mlDatasets <= inventory.total
    {
      var raw := store.ListObjects("raw/");
      var processed := store.ListObjects("processed/");
      var ml := store.ListObjects("ml_dataset/");
      var all := store.ListObjects("");
      assert WithPrefix(store.objects, "") == store.objects.Keys;
      InventoryBound(store.objects);
      inventory := Inventory(|raw|, |processed|, |ml|, |all|);
    }
  }

  // ----- Properties of the layout -----

  /** A field below ten to the `width`, zero-padded, orders as text the way it orders as a number. */
  lemma FieldOrder(m: nat, n: nat, width: nat)
    requires 1 <= width && m < n < Pow10(width)
    ensures |ZeroPad(m, width)| == |ZeroPad(n, width)| == width
    ensures LexLt(ZeroPad(m, width), ZeroPad(n, width))
  {
    PadLength(m, width);
    PadLength(n, width);
    DigitsOrder(ZeroPad(m, width), ZeroPad(n, width));
  }

  /**
   * Two texts made of the same separators around three fixed-width fields,
   * followed by anything, order as their fields do, first field first.
   */
  lemma FieldsOrder(s0: string, s1: string, s2: string,
                    a1: string, a2: string, a3: string, b1: string, b2: string, b3: string,
                    ta: string, tb: string)
    requires |a1| == |b1| && |a2| == |b2| && |a3| == |b3|
    requires LexLt(a1, b1) || (a1 == b1 && LexLt(a2, b2)) || (a1 == b1 && a2 == b2 && LexLt(a3, b3))
    ensures LexLt(s0 + a1 + s1 + a2 + s2 + a3 + ta, s0 + b1 + s1 + b2 + s2 + b3 + tb)
  {
    if LexLt(a1, b1) {
      LexLtAtPiece(s0, a1, b1, s1 + a2 + s2 + a3 + ta, s1 + b2 + s2 + b3 + tb);
      assert s0 + a1 + s1 + a2 + s2 + a3 + ta == s0 + a1 + (s1 + a2 + s2 + a3 + ta);
      assert s0 + b1 + s1 + b2 + s2 + b3 + tb == s0 + b1 + (s1 + b2 + s2 + b3 + tb);
    } else if a1 == b1 && LexLt(a2, b2) {
      LexLtAtPiece(s0 + a1 + s1, a2, b2, s2 + a3 + ta, s2 + b3 + tb);
      assert s0 + a1 + s1 + a2 + s2 + a3 + ta == s0 + a1 + s1 + a2 + (s2 + a3 + ta);
      assert s0 + b1 + s1 + b2 + s2 + b3 + tb == s0 + b1 + s1 + b2 + (s2 + b3 + tb);
    } else {
      LexLtAtPiece(s0 + a1 + s1 + a2 + s2, a3, b3, ta, tb);
    }
  }

  /** Fields below ten to the `width`, zero-padded, compare as text the way they compare as numbers. */
  lemma PaddedOrder(m: nat, n: nat, width: nat)
    requires 1 <= width && m < Pow10(width) && n < Pow10(width)
    ensures |ZeroPad(m, width)| == |ZeroPad(n, width)| == width
    ensures m < n ==> LexLt(ZeroPad(m, width), ZeroPad(n, width))
  {
    PadLength(m, width);
    PadLength(n, width);
    if m < n {
      FieldOrder(m, n, width);
    }
  }

  /** An earlier save gets a smaller dataset key. */
  lemma MlKeyOrder(a: Timestamp, b: Timestamp)
    requires Before(a, b)
    ensures LexLt(MlKey(a), MlKey(b))
  {
    if a.year == b.year && a.month == b.month && a.day == b.day {
      SameDayKeyOrder(a, b);
    } else {
      EarlierDayKeyOrder(a, b);
    }
  }

  lemma SameDayKeyOrder(a: Timestamp, b: Timestamp)
    requires a.year == b.year && a.month == b.month && a.day == b.day && Before(a, b)
    ensures LexLt(MlKey(a), MlKey(b))
  {
    assert Pow10(2) == 100;
    PaddedOrder(a.hour, b.hour, 2);
    PaddedOrder(a.minute, b.minute, 2);
    PaddedOrder(a.second, b.second, 2);
    var ha, na, sa := ZeroPad(a.hour, 2), ZeroPad(a.minute, 2), ZeroPad(a.second, 2);
    var hb, nb, sb := ZeroPad(b.hour, 2), ZeroPad(b.minute, 2), ZeroPad(b.second, 2);
    var s0 := "ml_dataset/" + DatePath(a) + "/dataset_";
    FieldsOrder(s0, [], [], ha, na, sa, hb, nb, sb, ".parquet", ".parquet");
    KeyShape(s0, ha, na, sa, ".parquet");
    KeyShape(s0, hb, nb, sb, ".parquet");
  }

  lemma KeyShape(s0: string, x: string, y: string, z: string, t: string)
    ensures s0 + (x + y + z) + t == s0 + x + [] + y + [] + z + t
  {
  }

  lemma EarlierDayKeyOrder(a: Timestamp, b: Timestamp)
    requires !(a.year == b.year && a.month == b.month && a.day == b.day) && Before(a, b)
    ensures LexLt(MlKey(a), MlKey(b))
  {
    assert Pow10(2) == 100 && Pow10(4) == 10000;
    PaddedOrder(a.year, b.year, 4);
    PaddedOrder(a.month, b.month, 2);
    PaddedOrder(a.day, b.day, 2);
    var ya, ma, da := ZeroPad(a.year, 4), ZeroPad(a.month, 2), ZeroPad(a.day, 2);
    var yb, mb, db := ZeroPad(b.year, 4), ZeroPad(b.month, 2), ZeroPad(b.day, 2);
    var ta, tb := "/dataset_" + TimeOfDay(a) + ".parquet", "/dataset_" + TimeOfDay(b) + ".parquet";
    FieldsOrder("ml_dataset/", "/", "/", ya, ma, da, yb, mb, db, ta, tb);
    DateKeyShape("ml_dataset/", ya, ma, da, "/", "/dataset_", TimeOfDay(a), ".parquet");
    DateKeyShape("ml_dataset/", yb, mb, db, "/", "/dataset_", TimeOfDay(b), ".parquet");
  }

  lemma DateKeyShape(c: string, y: string, m: string, d: string, slash: string, s: string, t: string, p: string)
    ensures c + (y + slash + m + slash + d) + s + t + p == c + y + slash + m + slash + d + (s + t + p)
  {
  }

  /** Every dataset key is one of the candidates `load_latest_ml_dataset` looks at. */
  lemma MlKeyIsCandidate(t: Timestamp)
    ensures StartsWith(MlKey(t), "ml_dataset/") && EndsWith(MlKey(t), ".parquet")
  {
    var k := MlKey(t);
    assert k[..11] == "ml_dataset/";
    assert k[|k| - 8..] == ".parquet";
  }

  /**
   * When every dataset in the bucket was saved at an earlier time, the dataset
   * just saved is the one `load_latest_ml_dataset` picks.
   */
  lemma LatestSaveIsLoaded(objects: map<string, seq<byte>>, t: Timestamp, parquet: seq<byte>)
    requires forall k :: k in ParquetKeys(objects) ==> exists s: Timestamp :: k == MlKey(s) && Before(s, t)
    ensures Greatest(MlKey(t), ParquetKeys(objects[MlKey(t) := parquet]))
  {
    var after := objects[MlKey(t) := parquet];
    MlKeyIsCandidate(t);
    LexLeReflexive(MlKey(t));
    forall other | other in ParquetKeys(after) ensures LexLe(other, MlKey(t)) {
      if other != MlKey(t) {
        assert other in ParquetKeys(objects);
        var s: Timestamp :| other == MlKey(s) && Before(s, t);
        MlKeyOrder(s, t);
      }
    }
  }

  /** Keys under two prefixes whose first characters differ are different keys. */
  lemma PrefixesDisjoint(objects: map<string, seq<byte>>, p: string, q: string)
    requires p != [] && q != [] && p[0] != q[0]
    ensures WithPrefix(objects, p) * WithPrefix(objects, q) == {}
  {
    forall k | k in WithPrefix(objects, p) ensures k !in WithPrefix(objects, q) {
      assert k[0] == p[0];
    }
  }

  /** Raw payloads, parsed records and datasets live under disjoint prefixes, so the three counts never exceed the total. */
  lemma InventoryBound(objects: map<string, seq<byte>>)
    ensures |WithPrefix(objects, "raw/")| + |WithPrefix(objects, "processed/")| + |WithPrefix(objects, "ml_dataset/")|
            <= |objects.Keys|
  {
    var r, p, m := WithPrefix(objects, "raw/"), WithPrefix(objects, "processed/"), WithPrefix(objects, "ml_dataset/");
    PrefixesDisjoint(objects, "raw/", "processed/");
    PrefixesDisjoint(objects, "raw/", "ml_dataset/");
    PrefixesDisjoint(objects, "processed/", "ml_dataset/");
    assert |r + p| == |r| + |p|;
    assert (r + p) * m == {};
    assert |r + p + m| == |r| + |p| + |m|;
    SubsetCard(r + p + m, objects.Keys);
  }

  lemma {:induction false} SubsetCard(a: set<string>, b: set<string>)
    requires a <= b
    ensures |a| <= |b|
    decreases |b|
  {
    if a != {} {
      var x :| x in a;
      SubsetCard(a - {x}, b - {x});
    }
  }
}
