/** Deep cloning of event data on the heap of maps and slices that Go values are made of. */
module DeepClone {
  import opened Json

  /** A Go interface value. Maps and slices are references; a nil map or slice has none. */
  datatype Value =
    | Nil
    | Str(s: string)
    | Num(n: real)
    | Bool(b: bool)
    | Object(m: MapObject)
    | NilObject
    | Slice(a: array<Value>)
    | NilSlice
    | Strings(strings: array<string>)
    | StringMap(t: StringMapObject)
    | Bytes(bytes: array<nat>)
    | Other(id: int)

  class MapObject {
    var entries: map<string, Value>

    constructor ()
      ensures entries == map[]
    {
      entries := map[];
    }
  }

  class StringMapObject {
    var entries: map<string, string>

    constructor ()
      ensures entries == map[]
    {
      entries := map[];
    }
  }

  /** Everything the value reaches lies in the region, through at most `depth` maps and slices. A finite depth is what
      being acyclic means; parts may be shared. */
  ghost predicate Within(v: Value, region: set<object>, depth: nat)
    reads region
    decreases depth
  {
    match v
    case Object(m) =>
      depth > 0 && m in region && forall k :: k in m.entries ==> Within(m.entries[k], region, depth - 1)
    case Slice(a) =>
      depth > 0 && a in region && forall i :: 0 <= i < a.Length ==> Within(a[i], region, depth - 1)
    case Strings(a) => a in region
    case StringMap(t) => t in region
    case Bytes(a) => a in region
    case NilObject => depth > 0
    case NilSlice => depth > 0
    case _ => true
  }

  /** What the value means, with no references left; a nil map or slice reads as an empty one. */
  ghost function Abs(v: Value, region: set<object>, depth: nat): Json
    requires Within(v, region, depth)
    reads region
    decreases depth, if v.Slice? then v.a.Length + 1 else 0
  {
    match v
    case Nil => JNull
    case Str(s) => JString(s)
    case Num(n) => JNumber(n)
    case Bool(b) => JBool(b)
    case Object(m) => JObject(map k | k in m.entries :: Abs(m.entries[k], region, depth - 1))
    case NilObject => JObject(map[])
    case Slice(a) => JArray(AbsItems(a, a.Length, region, depth))
    case NilSlice => JArray([])
    case Strings(a) => JStrings(a[..])
    case StringMap(t) => JStringMap(t.entries)
    case Bytes(a) => JBytes(a[..])
    case Other(id) => JOther(id)
  }

  ghost function AbsItems(a: array<Value>, n: nat, region: set<object>, depth: nat): (items: seq<Json>)
    requires Within(Slice(a), region, depth) && n <= a.Length
    reads region
    ensures |items| == n && forall i :: 0 <= i < n ==> items[i] == Abs(a[i], region, depth - 1)
    decreases depth, n
  {
    if n == 0 then [] else AbsItems(a, n - 1, region, depth) + [Abs(a[n - 1], region, depth - 1)]
  }

  /** A larger region changes neither. */
  lemma {:induction false} LargerRegion(v: Value, small: set<object>, large: set<object>, depth: nat)
    requires small <= large && Within(v, small, depth)
    ensures Within(v, large, depth) && Abs(v, large, depth) == Abs(v, small, depth)
    decreases depth
  {
    match v
    case Object(m) =>
      forall k | k in m.entries
        ensures Within(m.entries[k], large, depth - 1)
        ensures Abs(m.entries[k], large, depth - 1) == Abs(m.entries[k], small, depth - 1)
      {
        LargerRegion(m.entries[k], small, large, depth - 1);
      }
    case Slice(a) =>
      forall i | 0 <= i < a.Length
        ensures Within(a[i], large, depth - 1)
        ensures Abs(a[i], large, depth - 1) == Abs(a[i], small, depth - 1)
      {
        LargerRegion(a[i], small, large, depth - 1);
      }
      assert Abs(v, large, depth).items == Abs(v, small, depth).items;
    case _ =>
  }

  /** One value is a copy of another: it lives in its own region and means the same. */
  ghost predicate Copies(dst: Value, owned: set<object>, src: Value, region: set<object>, depth: nat)
    reads owned, region
  {
    && Within(dst, owned, depth) && Within(src, region, depth)
    && Abs(dst, owned, depth) == Abs(src, region, depth)
  }

  /** Two values look alike on the heap: the same scalar, maps with the same keys and slices of the same length, and alike
      below; a nil map is like an empty one, and a nil slice like an empty one. */
  ghost predicate Alike(v: Value, r: set<object>, w: Value, q: set<object>, depth: nat)
    requires Within(v, r, depth) && Within(w, q, depth)
    reads r, q
    decreases depth
  {
    match (v, w)
    case (Object(m), Object(n)) =>
      m.entries.Keys == n.entries.Keys &&
      forall k :: k in m.entries ==> Alike(m.entries[k], r, n.entries[k], q, depth - 1)
    case (Slice(a), Slice(b)) =>
      a.Length == b.Length && forall i :: 0 <= i < a.Length ==> Alike(a[i], r, b[i], q, depth - 1)
    case (Object(m), NilObject) => m.entries == map[]
    case (NilObject, Object(m)) => m.entries == map[]
    case (Slice(a), NilSlice) => a.Length == 0
    case (NilSlice, Slice(a)) => a.Length == 0
    case (Strings(a), Strings(b)) => a[..] == b[..]
    case (StringMap(a), StringMap(b)) => a.entries == b.entries
    case (Bytes(a), Bytes(b)) => a[..] == b[..]
    case _ => v == w
  }

  lemma FieldsOf(m: MapObject, r: set<object>, depth: nat)
    requires Within(Object(m), r, depth)
    ensures Abs(Object(m), r, depth).JObject? && Abs(Object(m), r, depth).fields.Keys == m.entries.Keys
    ensures forall k :: k in m.entries ==> Abs(Object(m), r, depth).fields[k] == Abs(m.entries[k], r, depth - 1)
    ensures Abs(Object(m), r, depth).fields == map[] <==> m.entries == map[]
  {
    var fields := Abs(Object(m), r, depth).fields;
    assert fields.Keys == m.entries.Keys;
    assert fields == map[] <==> fields.Keys == {};
    assert m.entries == map[] <==> m.entries.Keys == {};
  }

  lemma SameFieldsIffAlike(m: MapObject, r: set<object>, n: MapObject, q: set<object>, depth: nat)
    requires Within(Object(m), r, depth) && Within(Object(n), q, depth)
    requires forall k :: k in m.entries && k in n.entries ==>
      (Abs(m.entries[k], r, depth - 1) == Abs(n.entries[k], q, depth - 1)
       <==> Alike(m.entries[k], r, n.entries[k], q, depth - 1))
    ensures Abs(Object(m), r, depth) == Abs(Object(n), q, depth) <==> Alike(Object(m), r, Object(n), q, depth)
  {
    FieldsOf(m, r, depth);
    FieldsOf(n, q, depth);
    hide Abs;
    var x, y := Abs(Object(m), r, depth).fields, Abs(Object(n), q, depth).fields;
    if Alike(Object(m), r, Object(n), q, depth) {
      assert x == y;
    } else if m.entries.Keys == n.entries.Keys {
      var k :| k in m.entries && !Alike(m.entries[k], r, n.entries[k], q, depth - 1);
      assert x[k] != y[k];
    } else {
      assert x.Keys != y.Keys;
    }
  }

  lemma SameItemsIffAlike(a: array<Value>, r: set<object>, b: array<Value>, q: set<object>, depth: nat)
    requires Within(Slice(a), r, depth) && Within(Slice(b), q, depth)
    requires forall i :: 0 <= i < a.Length && i < b.Length ==>
      (Abs(a[i], r, depth - 1) == Abs(b[i], q, depth - 1) <==> Alike(a[i], r, b[i], q, depth - 1))
    ensures Abs(Slice(a), r, depth) == Abs(Slice(b), q, depth) <==> Alike(Slice(a), r, Slice(b), q, depth)
  {
    ItemsOf(a, r, depth);
    ItemsOf(b, q, depth);
    hide Abs;
    var x, y := Abs(Slice(a), r, depth).items, Abs(Slice(b), q, depth).items;
    if Alike(Slice(a), r, Slice(b), q, depth) {
      assert x == y;
    } else if a.Length == b.Length {
      var i :| 0 <= i < a.Length && !Alike(a[i], r, b[i], q, depth - 1);
      assert x[i] != y[i];
    }
  }

  lemma ItemsOf(a: array<Value>, r: set<object>, depth: nat)
    requires Within(Slice(a), r, depth)
    ensures var v := Abs(Slice(a), r, depth);
      v.JArray? && |v.items| == a.Length && forall i :: 0 <= i < a.Length ==> v.items[i] == Abs(a[i], r, depth - 1)
  {
  }

  /** Meaning the same is looking alike: the meaning forgets identity and nothing else. */
  lemma {:induction false} SameMeaningIffAlike(v: Value, r: set<object>, w: Value, q: set<object>, depth: nat)
    requires Within(v, r, depth) && Within(w, q, depth)
    ensures Abs(v, r, depth) == Abs(w, q, depth) <==> Alike(v, r, w, q, depth)
    decreases depth, 1
  {
    if v.Object? && w.Object? {
      AllFieldsAlike(v.m, r, w.m, q, depth);
    } else if v.Slice? && w.Slice? {
      AllItemsAlike(v.a, r, w.a, q, depth);
    } else {
      OtherKinds(v, r, w, q, depth);
    }
  }

  lemma {:induction false} AllFieldsAlike(m: MapObject, r: set<object>, n: MapObject, q: set<object>, depth: nat)
    requires Within(Object(m), r, depth) && Within(Object(n), q, depth)
    ensures Abs(Object(m), r, depth) == Abs(Object(n), q, depth) <==> Alike(Object(m), r, Object(n), q, depth)
    decreases depth, 0
  {
    hide Abs;
    hide Alike;
    forall k | k in m.entries && k in n.entries
      ensures Abs(m.entries[k], r, depth - 1) == Abs(n.entries[k], q, depth - 1)
        <==> Alike(m.entries[k], r, n.entries[k], q, depth - 1)
    {
      SameMeaningIffAlike(m.entries[k], r, n.entries[k], q, depth - 1);
    }
    SameFieldsIffAlike(m, r, n, q, depth);
  }

  lemma {:induction false} AllItemsAlike(a: array<Value>, r: set<object>, b: array<Value>, q: set<object>, depth: nat)
    requires Within(Slice(a), r, depth) && Within(Slice(b), q, depth)
    ensures Abs(Slice(a), r, depth) == Abs(Slice(b), q, depth) <==> Alike(Slice(a), r, Slice(b), q, depth)
    decreases depth, 0
  {
    hide Abs;
    hide Alike;
    forall i | 0 <= i < a.Length && i < b.Length
      ensures Abs(a[i], r, depth - 1) == Abs(b[i], q, depth - 1) <==> Alike(a[i], r, b[i], q, depth - 1)
    {
      SameMeaningIffAlike(a[i], r, b[i], q, depth - 1);
    }
    SameItemsIffAlike(a, r, b, q, depth);
  }

  lemma OtherKinds(v: Value, r: set<object>, w: Value, q: set<object>, depth: nat)
    requires Within(v, r, depth) && Within(w, q, depth)
    requires !(v.Object? && w.Object?) && !(v.Slice? && w.Slice?)
    ensures Abs(v, r, depth) == Abs(w, q, depth) <==> Alike(v, r, w, q, depth)
  {
    if v.Object? { FieldsOf(v.m, r, depth); }
    if w.Object? { FieldsOf(w.m, q, depth); }
    if v.Slice? { ItemsOf(v.a, r, depth); }
    if w.Slice? { ItemsOf(w.a, q, depth); }
  }

  lemma LargerCopy(dst: Value, small: set<object>, large: set<object>, src: Value, region: set<object>, depth: nat)
    requires small <= large && Copies(dst, small, src, region, depth)
    ensures Copies(dst, large, src, region, depth)
  {
    LargerRegion(dst, small, large, depth);
  }

  lemma MapCopied(dst: MapObject, owned: set<object>, src: MapObject, region: set<object>, depth: nat)
    requires depth > 0 && dst in owned && Within(Object(src), region, depth)
    requires dst.entries.Keys == src.entries.Keys
    requires forall k :: k in dst.entries ==> Copies(dst.entries[k], owned, src.entries[k], region, depth - 1)
    ensures Copies(Object(dst), owned, Object(src), region, depth)
  {
    assert Within(Object(dst), owned, depth);
    assert Abs(Object(dst), owned, depth).fields == Abs(Object(src), region, depth).fields;
  }

  lemma SliceCopied(dst: array<Value>, owned: set<object>, src: array<Value>, region: set<object>, depth: nat)
    requires depth > 0 && dst in owned && Within(Slice(src), region, depth) && dst.Length == src.Length
    requires forall i :: 0 <= i < dst.Length ==> Copies(dst[i], owned, src[i], region, depth - 1)
    ensures Copies(Slice(dst), owned, Slice(src), region, depth)
  {
    assert Within(Slice(dst), owned, depth);
    assert Abs(Slice(dst), owned, depth).items == Abs(Slice(src), region, depth).items;
  }

  /** The clone means the same, and every map and slice in it is newly allocated. */
  method CloneMapInterface(src: Value, ghost region: set<object>, ghost depth: nat)
    returns (dst: Value, ghost owned: set<object>)
    requires Within(src, region, depth)
    ensures fresh(owned) && Copies(dst, owned, src, region, depth)
    decreases depth, 1
  {
    owned := {};
    match src {
      case Object(m) =>
        if |m.entries| == 0 {
          var empty := new MapObject();
          dst, owned := Object(empty), {empty};
          assert m.entries == map[];
          MapCopied(empty, owned, m, region, depth);
        } else {
          var clone;
          clone, owned := CloneMap(m, region, depth);
          dst := Object(clone);
        }
      case NilObject =>
        var empty := new MapObject();
        dst, owned := Object(empty), {empty};
      case NilSlice =>
        var empty := new Value[0];
        dst, owned := Slice(empty), {empty};
      case Slice(a) => dst, owned := CloneSlice(a, region, depth);
      case Strings(a) =>
        var result := new string[a.Length];
        forall i | 0 <= i < a.Length { result[i] := a[i]; }
        assert result[..] == a[..];
        dst, owned := Strings(result), {result};
      case StringMap(t) =>
        var result := new StringMapObject();
        result.entries := t.entries;
        dst, owned := StringMap(result), {result};
      case Bytes(a) =>
        var result := new nat[a.Length];
        forall i | 0 <= i < a.Length { result[i] := a[i]; }
        assert result[..] == a[..];
        dst, owned := Bytes(result), {result};
      case _ => dst := src;
    }
  }

  method CloneMap(src: MapObject, ghost region: set<object>, ghost depth: nat)
    returns (dst: MapObject, ghost owned: set<object>)
    requires Within(Object(src), region, depth)
    ensures fresh(owned) && Copies(Object(dst), owned, Object(src), region, depth)
    decreases depth, 0
  {
    hide Abs;
    hide Copies;
    dst := new MapObject();
    ghost var parts: set<object> := {};
    var keys := src.entries.Keys;
    while keys != {}
      invariant keys <= src.entries.Keys && dst.entries.Keys == src.entries.Keys - keys
      invariant fresh(parts) && dst !in parts
      invariant forall k :: k in dst.entries ==> Copies(dst.entries[k], parts, src.entries[k], region, depth - 1)
      decreases keys
    {
      var k :| k in keys;
      keys := keys - {k};
      var v;
      ghost var part;
      v, part := CloneMapInterface(src.entries[k], region, depth - 1);
      forall j | j in dst.entries ensures Copies(dst.entries[j], parts + part, src.entries[j], region, depth - 1) {
        LargerCopy(dst.entries[j], parts, parts + part, src.entries[j], region, depth - 1);
      }
      LargerCopy(v, part, parts + part, src.entries[k], region, depth - 1);
      parts := parts + part;
      dst.entries := dst.entries[k := v];
    }
    owned := parts + {dst};
    forall k | k in dst.entries ensures Copies(dst.entries[k], owned, src.entries[k], region, depth - 1) {
      LargerCopy(dst.entries[k], parts, owned, src.entries[k], region, depth - 1);
    }
    MapCopied(dst, owned, src, region, depth);
  }

  method CloneSlice(a: array<Value>, ghost region: set<object>, ghost depth: nat)
    returns (dst: Value, ghost owned: set<object>)
    requires Within(Slice(a), region, depth)
    ensures fresh(owned) && Copies(dst, owned, Slice(a), region, depth)
    decreases depth, 0
  {
    hide Abs;
    hide Copies;
    var result := new Value[a.Length](_ => Nil);
    ghost var parts: set<object> := {};
    for i := 0 to a.Length
      invariant fresh(parts) && result !in parts
      invariant forall j :: 0 <= j < i ==> Copies(result[j], parts, a[j], region, depth - 1)
    {
      var v;
      ghost var part;
      v, part := CloneMapInterface(a[i], region, depth - 1);
      forall j | 0 <= j < i ensures Copies(result[j], parts + part, a[j], region, depth - 1) {
        LargerCopy(result[j], parts, parts + part, a[j], region, depth - 1);
      }
      LargerCopy(v, part, parts + part, a[i], region, depth - 1);
      parts := parts + part;
      result[i] := v;
    }
    owned := parts + {result};
    dst := Slice(result);
    forall j | 0 <= j < a.Length ensures Copies(result[j], owned, a[j], region, depth - 1) {
      LargerCopy(result[j], parts, owned, a[j], region, depth - 1);
    }
    SliceCopied(result, owned, a, region, depth);
  }

  /** The variant for forwarding, which keeps a nil map nil. */
  method CloneForForward(src: MapObject?, ghost region: set<object>, ghost depth: nat)
    returns (dst: MapObject?, ghost owned: set<object>)
    requires src != null ==> Within(Object(src), region, depth)
    ensures fresh(owned) && (dst == null <==> src == null)
    ensures src != null ==> Copies(Object(dst), owned, Object(src), region, depth)
  {
    owned := {};
    if src == null { return null, owned; }
    dst, owned := CloneMap(src, region, depth);
  }

  // ---- What the caller may do afterwards ----

  /** One assignment to an element of a map or slice, or the deletion of a key. */
  datatype Write =
    | SetEntry(m: MapObject, key: string, value: Value)
    | DeleteEntry(m: MapObject, key: string)
    | SetItem(a: array<Value>, i: nat, value: Value)
    | SetString(strings: array<string>, i: nat, s: string)
    | SetText(t: StringMapObject, key: string, s: string)
    | SetByte(bytes: array<nat>, i: nat, b: nat)

  function Target(w: Write): object {
    match w
    case SetEntry(m, _, _) => m
    case DeleteEntry(m, _) => m
    case SetItem(a, _, _) => a
    case SetString(a, _, _) => a
    case SetText(t, _, _) => t
    case SetByte(a, _, _) => a
  }

  /** An index out of range panics, and so writes nothing. */
  method Perform(w: Write)
    modifies Target(w)
    ensures match w {
      case SetEntry(m, key, value) => m.entries == old(m.entries)[key := value]
      case DeleteEntry(m, key) => m.entries == old(m.entries) - {key}
      case SetItem(a, i, value) => a[..] == if i < a.Length then old(a[..])[i := value] else old(a[..])
      case SetString(a, i, s) => a[..] == if i < a.Length then old(a[..])[i := s] else old(a[..])
      case SetText(t, key, s) => t.entries == old(t.entries)[key := s]
      case SetByte(a, i, b) => a[..] == if i < a.Length then old(a[..])[i := b] else old(a[..])
    }
  {
    match w {
      case SetEntry(m, key, value) => m.entries := m.entries[key := value];
      case DeleteEntry(m, key) => m.entries := m.entries - {key};
      case SetItem(a, i, value) => if i < a.Length { a[i] := value; }
      case SetString(a, i, s) => if i < a.Length { a[i] := s; }
      case SetText(t, key, s) => t.entries := t.entries[key := s];
      case SetByte(a, i, b) => if i < a.Length { a[i] := b; }
    }
  }

  method PerformAll(writes: seq<Write>)
    modifies set w | w in writes :: Target(w)
  {
    ghost var targets := set w | w in writes :: Target(w);
    for i := 0 to |writes| {
      var w := writes[i];
      assert w in writes && Target(w) in targets;
      Perform(w);
    }
  }

  /** A cached event keeps the meaning its data had when it was added, whatever the caller goes on to write to any
      maps and slices it has, those of the data included. */
  method CacheThenWrite(data: Value, ghost region: set<object>, ghost depth: nat, writes: seq<Write>)
    returns (cached: Value, ghost owned: set<object>)
    requires Within(data, region, depth)
    modifies set w | w in writes :: Target(w)
    ensures fresh(owned) && Within(cached, owned, depth)
    ensures Abs(cached, owned, depth) == old(Abs(data, region, depth))
  {
    cached, owned := CloneMapInterface(data, region, depth);
    PerformAll(writes);
  }
}
