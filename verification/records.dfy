/**
 * The pet list: the `ImageData` record, the extraction of records from the
 * decoded JSON array (`parseJSON`), and the shape check `fetchData` applies to
 * the top-level value before extracting.
 */
module Records {
  import opened Wrappers
  import opened JsonValue
  import opened Network

  /** One pet: `struct ImageData`. */
  datatype ImageData = ImageData(title: string, description: string, imageUrl: string, createdDate: string)

  /** The four keys an item must carry, each with a string value. */
  const RequiredKeys: set<string> := {"title", "description", "url", "created"}

  /** The item carries `key` with a string value. */
  predicate HasString(item: Object, key: string) {
    key in item && item[key].JString?
  }

  /**
   * The record an item yields, if any: all four keys must be present with
   * string values; `url` becomes `imageUrl` and `created` becomes `createdDate`.
   */
  function RecordOf(item: Object): (r: Option<ImageData>)
    ensures r.Some? <==> forall k | k in RequiredKeys :: HasString(item, k)
    ensures r.Some? ==>
      && item["title"] == JString(r.value.title)
      && item["description"] == JString(r.value.description)
      && item["url"] == JString(r.value.imageUrl)
      && item["created"] == JString(r.value.createdDate)
  {
    match (StringAt(item, "title"), StringAt(item, "description"), StringAt(item, "url"), StringAt(item, "created"))
    case (Some(t), Some(d), Some(u), Some(c)) => Some(ImageData(t, d, u, c))
    case _ =>
      assert !HasString(item, "title") || !HasString(item, "description")
          || !HasString(item, "url") || !HasString(item, "created");
      None
  }

  /** The JSON object a server would send for a record: the inverse of `RecordOf`. */
  function ToObject(rec: ImageData): (obj: Object)
    ensures obj.Keys == RequiredKeys
  {
    map["title" := JString(rec.title), "description" := JString(rec.description),
        "url" := JString(rec.imageUrl), "created" := JString(rec.createdDate)]
  }

  /** Reading back the object of a record gives the record, whatever other keys the item has. */
  lemma RecordOfToObject(rec: ImageData, extra: Object)
    requires extra.Keys !! RequiredKeys
    ensures RecordOf(extra + ToObject(rec)) == Some(rec)
    ensures RecordOf(ToObject(rec)) == Some(rec)
  {
    var item := extra + ToObject(rec);
    assert item["title"] == JString(rec.title);
    assert item["description"] == JString(rec.description);
    assert item["url"] == JString(rec.imageUrl);
    assert item["created"] == JString(rec.createdDate);
  }

  /** Keys other than the four are ignored. */
  lemma ExtraKeysIgnored(item: Object, key: string, v: Json)
    requires key !in RequiredKeys
    ensures RecordOf(item[key := v]) == RecordOf(item)
  {
    var item' := item[key := v];
    forall k | k in RequiredKeys ensures HasString(item', k) == HasString(item, k) && (k in item ==> item'[k] == item[k]) {
      assert k != key;
    }
  }

  /** The records a list of items yields, in input order. */
  function Extract(items: seq<Object>): (r: seq<ImageData>)
    ensures |r| <= |items|
    decreases |items|
  {
    if |items| == 0 then []
    else
      match RecordOf(items[0])
      case Some(rec) => [rec] + Extract(items[1..])
      case None => Extract(items[1..])
  }

  /** Extraction works item by item: it distributes over concatenation. */
  lemma {:induction false} ExtractAppend(a: seq<Object>, b: seq<Object>)
    ensures Extract(a + b) == Extract(a) + Extract(b)
    decreases |a|
  {
    if |a| == 0 {
      assert a + b == b;
    } else {
      assert (a + b)[0] == a[0];
      assert (a + b)[1..] == a[1..] + b;
      ExtractAppend(a[1..], b);
    }
  }

  /** Extraction of one item: its record if it qualifies, else nothing. */
  lemma ExtractSingle(item: Object)
    ensures RecordOf(item).Some? ==> Extract([item]) == [RecordOf(item).value]
    ensures RecordOf(item).None? ==> Extract([item]) == []
  {
    assert [item][1..] == [];
  }

  /** The number of qualifying items. */
  function CountQualifying(items: seq<Object>): nat
    decreases |items|
  {
    if |items| == 0 then 0
    else (if RecordOf(items[0]).Some? then 1 else 0) + CountQualifying(items[1..])
  }

  /**
   * Extraction keeps exactly the qualifying items: one record per qualifying
   * item, every record comes from some item, and every qualifying item's
   * record is present.
   */
  lemma {:induction false} ExtractExactly(items: seq<Object>)
    ensures |Extract(items)| == CountQualifying(items)
    ensures forall k | 0 <= k < |Extract(items)| ::
      exists i | 0 <= i < |items| :: RecordOf(items[i]) == Some(Extract(items)[k])
    ensures forall i | 0 <= i < |items| && RecordOf(items[i]).Some? ::
      RecordOf(items[i]).value in Extract(items)
    decreases |items|
  {
    if |items| > 0 {
      var rest := items[1..];
      ExtractExactly(rest);
      var r := Extract(items);
      forall k | 0 <= k < |r|
        ensures exists i | 0 <= i < |items| :: RecordOf(items[i]) == Some(r[k])
      {
        if RecordOf(items[0]).Some? {
          if k == 0 {
            assert RecordOf(items[0]) == Some(r[0]);
          } else {
            var i :| 0 <= i < |rest| && RecordOf(rest[i]) == Some(Extract(rest)[k - 1]);
            assert items[i + 1] == rest[i];
          }
        } else {
          var i :| 0 <= i < |rest| && RecordOf(rest[i]) == Some(Extract(rest)[k]);
          assert items[i + 1] == rest[i];
        }
      }
      forall i | 0 <= i < |items| && RecordOf(items[i]).Some?
        ensures RecordOf(items[i]).value in r
      {
        if i > 0 {
          assert items[i] == rest[i - 1];
        }
      }
    }
  }

  /** When every item qualifies, extraction is a plain map over the items. */
  lemma {:induction false} ExtractAllQualify(items: seq<Object>)
    requires forall i | 0 <= i < |items| :: RecordOf(items[i]).Some?
    ensures |Extract(items)| == |items|
    ensures forall i | 0 <= i < |items| :: Extract(items)[i] == RecordOf(items[i]).value
    decreases |items|
  {
    if |items| > 0 {
      assert forall i | 0 <= i < |items| - 1 :: items[1..][i] == items[i + 1];
      ExtractAllQualify(items[1..]);
    }
  }

  /**
   * `parseJSON`: walks the items in order and appends each qualifying
   * item's record to `imageDataList`.
   */
  method ParseJson(list: seq<ImageData>, items: seq<Object>) returns (list': seq<ImageData>)
    ensures list' == list + Extract(items)
    ensures |list| <= |list'| <= |list| + |items|
  {
    list' := list;
    var i := 0;
    while i < |items|
      invariant 0 <= i <= |items|
      invariant list' == list + Extract(items[..i])
    {
      match RecordOf(items[i]) {
        case Some(rec) => list' := list' + [rec];
        case None =>
      }
      ExtractAppend(items[..i], [items[i]]);
      ExtractSingle(items[i]);
      assert items[..i + 1] == items[..i] + [items[i]];
      i := i + 1;
    }
    assert items[..i] == items;
  }

  /**
   * The cast `as? [[String: Any]]`: the top-level value is usable only when it
   * is an array whose every element is an object.
   */
  function AsObjectArray(j: Json): (r: Option<seq<Object>>)
    ensures r.Some? <==> j.JArray? && forall i | 0 <= i < |j.items| :: j.items[i].JObject?
    ensures r.Some? ==> |r.value| == |j.items|
    ensures r.Some? ==> forall i | 0 <= i < |j.items| :: j.items[i] == JObject(r.value[i])
  {
    if j.JArray? && forall i | 0 <= i < |j.items| :: j.items[i].JObject? then
      Some(seq(|j.items|, i requires 0 <= i < |j.items| => j.items[i].fields))
    else None
  }

  /** What a server sends for a list of objects. */
  function ArrayOf(objs: seq<Object>): (j: Json)
    ensures j.JArray? && |j.items| == |objs|
  {
    JArray(seq(|objs|, i requires 0 <= i < |objs| => JObject(objs[i])))
  }

  /** The cast recovers exactly the objects an array of objects was built from. */
  lemma AsObjectArrayOf(objs: seq<Object>)
    ensures AsObjectArray(ArrayOf(objs)) == Some(objs)
  {
    var r := AsObjectArray(ArrayOf(objs));
    assert r.Some?;
    assert r.value == objs;
  }

  /** The list after `fetchData`, and whether it asked for the views to be built. */
  datatype Listing = Listing(records: seq<ImageData>, display: bool)

  /**
   * `fetchData`: on a delivered reply that decodes (Some) to an array of
   * objects, appends the extracted records and requests display; any other
   * outcome leaves the list alone and displays nothing.
   */
  method FetchData(list: seq<ImageData>, reply: Reply<Option<Json>>) returns (r: Listing)
    ensures r.display <==> reply.Delivered? && reply.data.Some? && AsObjectArray(reply.data.value).Some?
    ensures !r.display ==> r.records == list
    ensures r.display ==> r.records == list + Extract(AsObjectArray(reply.data.value).value)
  {
    match reply {
      case Failed =>
        return Listing(list, false);
      case Delivered(decoded) =>
        if decoded.None? {
          return Listing(list, false);
        }
        var arr := AsObjectArray(decoded.value);
        if arr.None? {
          return Listing(list, false);
        }
        var list' := ParseJson(list, arr.value);
        return Listing(list', true);
    }
  }
}
