/**
 Duplicate-free JSON (section 2.3 of RFC 7493). The parser offers each object as a list of
 entries in wire order; the visitor folds them into a map and refuses a repeated key, at every
 depth.
 */
module StrictJson {
  import opened Basics

  /** What the parser offers: an object may still repeat a key. */
  datatype Wire =
    | Null
    | Bool(flag: bool)
    | Number(literal: string)
    | Str(text: string)
    | Array(items: seq<Wire>)
    | Object(entries: seq<Entry>)

  datatype Entry = Entry(key: string, value: Wire)

  datatype Value =
    | NullValue
    | BoolValue(flag: bool)
    | NumberValue(literal: string)
    | StringValue(text: string)
    | ArrayValue(items: seq<Value>)
    | ObjectValue(fields: map<string, Value>)

  predicate DistinctKeys(entries: seq<Entry>) {
    forall i, j :: 0 <= i < j < |entries| ==> entries[i].key != entries[j].key
  }

  /** No object at any level repeats a key. */
  predicate DuplicateFree(w: Wire) {
    match w
    case Array(items) => forall i :: 0 <= i < |items| ==> DuplicateFree(items[i])
    case Object(entries) =>
      DistinctKeys(entries) && forall i :: 0 <= i < |entries| ==> DuplicateFree(entries[i].value)
    case _ => true
  }

  /** The value says exactly what the wire says: scalars, array order, and the same keys with the same values. */
  ghost predicate Means(w: Wire, v: Value) {
    match w
    case Null => v == NullValue
    case Bool(flag) => v == BoolValue(flag)
    case Number(literal) => v == NumberValue(literal)
    case Str(text) => v == StringValue(text)
    case Array(items) =>
      v.ArrayValue? && |v.items| == |items|
      && forall i :: 0 <= i < |items| ==> Means(items[i], v.items[i])
    case Object(entries) =>
      v.ObjectValue?
      && (forall k :: k in v.fields ==> exists i :: 0 <= i < |entries| && entries[i].key == k)
      && (forall i :: 0 <= i < |entries| ==>
           entries[i].key in v.fields && Means(entries[i].value, v.fields[entries[i].key]))
  }

  /** Accepts exactly the duplicate-free trees, and keeps their meaning. */
  method Visit(w: Wire) returns (r: Option<Value>)
    ensures r.Some? <==> DuplicateFree(w)
    ensures r.Some? ==> Means(w, r.value)
    decreases w, 1
  {
    match w {
      case Null => r := Some(NullValue);
      case Bool(flag) => r := Some(BoolValue(flag));
      case Number(literal) => r := Some(NumberValue(literal));
      case Str(text) => r := Some(StringValue(text));
      case Array(_) => r := VisitSeq(w);
      case Object(_) => r := VisitMap(w);
    }
  }

  method VisitSeq(w: Wire) returns (r: Option<Value>)
    requires w.Array?
    ensures r.Some? <==> DuplicateFree(w)
    ensures r.Some? ==> Means(w, r.value)
    decreases w, 0
  {
    var values: seq<Value> := [];
    for i := 0 to |w.items|
      invariant |values| == i
      invariant forall j :: 0 <= j < i ==> DuplicateFree(w.items[j]) && Means(w.items[j], values[j])
    {
      var value := Visit(w.items[i]);
      if value.None? {
        return None;
      }
      values := values + [value.value];
    }
    return Some(ArrayValue(values));
  }

  method VisitMap(w: Wire) returns (r: Option<Value>)
    requires w.Object?
    ensures r.Some? <==> DuplicateFree(w)
    ensures r.Some? ==> Means(w, r.value)
    decreases w, 0
  {
    var entries := w.entries;
    var values: map<string, Value> := map[];
    for i := 0 to |entries|
      invariant DuplicateFree(Object(entries[..i])) && Means(Object(entries[..i]), ObjectValue(values))
    {
      var value := Visit(entries[i].value);
      if value.None? {
        return None;
      }
      if entries[i].key in values {
        KeyTaken(entries, i, values);
        return None;
      }
      AddField(entries[..i], values, entries[i], value.value);
      assert entries[..i + 1] == entries[..i] + [entries[i]];
      values := values[entries[i].key := value.value];
    }
    assert entries[..|entries|] == entries;
    return Some(ObjectValue(values));
  }

  lemma AddField(done: seq<Entry>, values: map<string, Value>, e: Entry, v: Value)
    requires DuplicateFree(Object(done)) && Means(Object(done), ObjectValue(values))
    requires e.key !in values && DuplicateFree(e.value) && Means(e.value, v)
    ensures DuplicateFree(Object(done + [e])) && Means(Object(done + [e]), ObjectValue(values[e.key := v]))
  {
    var all, fields := done + [e], values[e.key := v];
    forall k | k in fields
      ensures exists i :: 0 <= i < |all| && all[i].key == k
    {
      if k == e.key {
        assert all[|done|].key == k;
      } else {
        var i :| 0 <= i < |done| && done[i].key == k;
        assert all[i].key == k;
      }
    }
  }

  lemma KeyTaken(entries: seq<Entry>, i: nat, values: map<string, Value>)
    requires i < |entries| && entries[i].key in values
    requires Means(Object(entries[..i]), ObjectValue(values))
    ensures !DuplicateFree(Object(entries))
  {
    var j :| 0 <= j < i && entries[..i][j].key == entries[i].key;
    assert entries[j].key == entries[i].key;
  }

  /** The meaning of a tree is one value, so what the visitor returns is determined. */
  lemma {:induction false} MeaningUnique(w: Wire, u: Value, v: Value)
    requires Means(w, u) && Means(w, v)
    ensures u == v
  {
    match w {
      case Array(items) =>
        forall i | 0 <= i < |items|
          ensures u.items[i] == v.items[i]
        {
          MeaningUnique(items[i], u.items[i], v.items[i]);
        }
      case Object(entries) =>
        forall k | k in u.fields
          ensures k in v.fields && u.fields[k] == v.fields[k]
        {
          var i :| 0 <= i < |entries| && entries[i].key == k;
          MeaningUnique(entries[i].value, u.fields[k], v.fields[k]);
        }
        assert u.fields.Keys == v.fields.Keys;
      case _ =>
    }
  }

  /** Reordering the entries of an object does not change its meaning. */
  lemma EntryOrderIrrelevant(a: seq<Entry>, b: seq<Entry>, v: Value)
    requires forall e :: e in a <==> e in b
    ensures Means(Object(a), v) <==> Means(Object(b), v)
  {
    if Means(Object(a), v) {
      EntriesCover(a, b, v);
    }
    if Means(Object(b), v) {
      EntriesCover(b, a, v);
    }
  }

  lemma EntriesCover(a: seq<Entry>, b: seq<Entry>, v: Value)
    requires Means(Object(a), v) && forall e :: e in a <==> e in b
    ensures Means(Object(b), v)
  {
    forall k | k in v.fields
      ensures exists i :: 0 <= i < |b| && b[i].key == k
    {
      var i :| 0 <= i < |a| && a[i].key == k;
      assert a[i] in b;
      var j :| 0 <= j < |b| && b[j] == a[i];
    }
    forall i | 0 <= i < |b|
      ensures b[i].key in v.fields && Means(b[i].value, v.fields[b[i].key])
    {
      assert b[i] in a;
      var j :| 0 <= j < |a| && a[j] == b[i];
    }
  }
}
