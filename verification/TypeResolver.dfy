// Resolving user-defined types from the data dictionary: a depth-first walk with a cache.
module TypeResolver {
  import opened Bytes

  // ---- the dictionary ----

  datatype Name = Name(schema: string, name: string)

  const XMLTYPE := Name("SYS", "XMLTYPE")

  /** The cache key of a type. */
  function Key(n: Name): string {
    n.schema + "." + n.name
  }

  /** An attribute or element row: a base type (None if unsupported), or a reference to another type. */
  datatype Row =
    | Base(attr: string, typeNum: Option<byte>)
    | Ref(attr: string, target: Name)

  /** What the dictionary knows of a type. A collection may lack its row in ALL_COLL_TYPES. */
  datatype Entry =
    | CollectionEntry(varray: bool, elem: Option<Row>)
    | ObjectEntry(rows: seq<Row>)

  type Dictionary = map<Name, Entry>

  const TYPE_OBJECT: byte := 109

  function Rows(e: Entry): seq<Row> {
    match e
    case CollectionEntry(_, elem) => (match elem case None => [] case Some(r) => [r])
    case ObjectEntry(rows) => rows
  }

  // ---- which types have a finite description ----

  /** The type unfolds to base types within n levels. */
  predicate Fits(d: Dictionary, name: Name, n: nat)
    decreases n, 0
  {
    n > 0
    && (name == XMLTYPE
        || (name in d && (d[name].CollectionEntry? ==> d[name].elem.Some?) && FitRows(d, Rows(d[name]), n - 1)))
  }

  predicate FitRows(d: Dictionary, rows: seq<Row>, n: nat)
    decreases n, 2
  {
    forall i :: 0 <= i < |rows| ==> FitRow(d, rows[i], n)
  }

  predicate FitRow(d: Dictionary, r: Row, n: nat)
    decreases n, 1
  {
    match r
    case Base(_, typeNum) => typeNum.Some?
    case Ref(_, target) => Fits(d, target, n)
  }

  ghost predicate Finite(d: Dictionary, name: Name) {
    exists n :: Fits(d, name, n)
  }

  lemma {:induction false} FitsLonger(d: Dictionary, name: Name, n: nat, m: nat)
    requires Fits(d, name, n) && n <= m
    ensures Fits(d, name, m)
    decreases n, 0
  {
    if name != XMLTYPE {
      FitRowsLonger(d, Rows(d[name]), n - 1, m - 1);
    }
  }

  lemma {:induction false} FitRowsLonger(d: Dictionary, rows: seq<Row>, n: nat, m: nat)
    requires FitRows(d, rows, n) && n <= m
    ensures FitRows(d, rows, m)
    decreases n, 1
  {
    forall i | 0 <= i < |rows|
      ensures FitRow(d, rows[i], m)
    {
      assert FitRow(d, rows[i], n);
      if rows[i].Ref? {
        FitsLonger(d, rows[i].target, n, m);
      }
    }
  }

  predicate RefersTo(d: Dictionary, a: Name, b: Name) {
    a != XMLTYPE && a in d && exists i :: 0 <= i < |Rows(d[a])| && IsRefTo(Rows(d[a])[i], b)
  }

  predicate IsRefTo(r: Row, b: Name) {
    r.Ref? && r.target == b
  }

  ghost predicate Path(d: Dictionary, path: seq<Name>) {
    forall k :: 0 <= k < |path| - 1 ==> RefersTo(d, path[k], path[k + 1])
  }

  lemma {:induction false} FitsAlongPath(d: Dictionary, path: seq<Name>, k: nat, n: nat)
    requires k < |path| && Path(d, path) && Fits(d, path[0], n)
    ensures n > k && Fits(d, path[k], n - k)
  {
    if k > 0 {
      FitsAlongPath(d, path, k - 1, n);
      assert RefersTo(d, path[k - 1], path[k - 1 + 1]);
      var rows := Rows(d[path[k - 1]]);
      var i :| 0 <= i < |rows| && IsRefTo(rows[i], path[k]);
      assert FitRow(d, rows[i], n - k);
    }
  }

  /** A type that refers back to itself, over however many steps, has no finite description. */
  lemma {:induction false} CyclesDoNotFit(d: Dictionary, path: seq<Name>, n: nat)
    requires |path| > 1 && Path(d, path) && path[0] == path[|path| - 1]
    ensures !Fits(d, path[0], n)
  {
    if Fits(d, path[0], n) {
      FitsAlongPath(d, path, |path| - 1, n);
      CyclesDoNotFit(d, path, n - (|path| - 1));
    }
  }

  // ---- when keys tell names apart ----

  predicate Dotless(n: Name) {
    '.' !in n.schema
  }

  /** No schema name, of a type or of a reference, contains a dot. */
  predicate PlainNames(d: Dictionary) {
    forall n :: n in d ==> Dotless(n) && forall i :: 0 <= i < |Rows(d[n])| && Rows(d[n])[i].Ref? ==> Dotless(Rows(d[n])[i].target)
  }

  /** Part of a's name, up to a dot in it, is the end of b's schema. */
  predicate DotMoves(a: Name, b: Name) {
    |a.schema| < |b.schema| &&
    var t := b.schema[|a.schema| + 1..];
    b.schema == a.schema + "." + t && a.name == t + "." + b.name
  }

  lemma KeyParts(n: Name)
    ensures |Key(n)| == |n.schema| + 1 + |n.name|
    ensures Key(n)[..|n.schema|] == n.schema && Key(n)[|n.schema|] == '.' && Key(n)[|n.schema| + 1..] == n.name
  {
  }

  lemma MovedDot(a: Name, b: Name)
    requires Key(a) == Key(b) && |a.schema| < |b.schema|
    ensures DotMoves(a, b)
  {
    hide Key;
    KeyParts(a);
    KeyParts(b);
    var k, i, j := Key(a), |a.schema|, |b.schema|;
    var t := b.schema[i + 1..];
    assert k[..j][i] == k[i] && k[..j][..i] == k[..i] && k[..j][i + 1..] == k[i + 1..j];
    assert b.schema == b.schema[..i] + [b.schema[i]] + b.schema[i + 1..];
    assert k[i + 1..] == k[i + 1..j] + [k[j]] + k[j + 1..];
  }

  lemma MovedDotClashes(a: Name, b: Name)
    requires DotMoves(a, b)
    ensures Key(a) == Key(b)
  {
    var t := b.schema[|a.schema| + 1..];
    assert a.schema + "." + (t + "." + b.name) == (a.schema + "." + t) + "." + b.name;
  }

  /** Two types share a cache key exactly when they are the same or a dot moves between schema and name. */
  lemma KeysAreNamesIff(a: Name, b: Name)
    ensures Key(a) == Key(b) <==> a == b || DotMoves(a, b) || DotMoves(b, a)
  {
    hide Key, DotMoves;
    if Key(a) == Key(b) {
      if |a.schema| < |b.schema| {
        MovedDot(a, b);
      } else if |b.schema| < |a.schema| {
        MovedDot(b, a);
      } else {
        KeyParts(a);
        KeyParts(b);
      }
    }
    if DotMoves(a, b) { MovedDotClashes(a, b); }
    if DotMoves(b, a) { MovedDotClashes(b, a); }
  }

  lemma MovedDotShows(a: Name, b: Name)
    requires DotMoves(a, b)
    ensures !Dotless(b)
  {
    assert b.schema[|a.schema|] == '.';
  }

  /** In particular keys tell apart the types of schemas without dots. */
  lemma KeysAreNames(a: Name, b: Name)
    requires Dotless(a) && Dotless(b) && Key(a) == Key(b)
    ensures a == b
  {
    hide Key, DotMoves, Dotless;
    KeysAreNamesIff(a, b);
    if DotMoves(a, b) { MovedDotShows(a, b); }
    if DotMoves(b, a) { MovedDotShows(b, a); }
  }

  /** A dotted schema name makes two types one to the cache. */
  lemma DottedKeysClash()
    ensures var a, b := Name("A", "B.C"), Name("A.B", "C"); a != b && Key(a) == Key(b)
  {
    assert "A" + "." + "B.C" == "A.B" + "." + "C";
  }

  // ---- the resolver ----

  /** An attribute or element as resolved; objType is set for object-valued ones. */
  datatype AttrMeta = AttrMeta(name: string, typeNum: byte, objType: ObjectType?)

  class ObjectType {
    const name: Name
    const isXMLType: bool
    var isCollection: bool
    var varray: bool
    var attrs: seq<AttrMeta>   // for a collection, its element alone
    var resolved: bool

    constructor (name: Name)
      ensures this.name == name && isXMLType == (name == XMLTYPE) && !resolved && attrs == [] && !isCollection
    {
      this.name, isXMLType := name, name == XMLTYPE;
      isCollection, varray, attrs, resolved := false, false, [], false;
    }

    /** The type says what its dictionary entry says. */
    ghost predicate Describes(d: Dictionary)
      reads this
    {
      isXMLType == (name == XMLTYPE)
      && if isXMLType then attrs == [] && !isCollection
      else
        name in d
        && isCollection == d[name].CollectionEntry?
        && (isCollection ==> d[name].elem.Some? && varray == d[name].varray)
        && MetasOf(Rows(d[name]), attrs)
    }
  }

  predicate MetaOf(r: Row, a: AttrMeta) {
    match r
    case Base(name, typeNum) => a.name == name && typeNum == Some(a.typeNum) && a.objType == null
    case Ref(name, target) => a.name == name && a.typeNum == TYPE_OBJECT && a.objType != null && Key(a.objType.name) == Key(target)
  }

  predicate MetasOf(rows: seq<Row>, attrs: seq<AttrMeta>) {
    |attrs| == |rows| && forall i :: 0 <= i < |rows| ==> MetaOf(rows[i], attrs[i])
  }

  type Cache = map<string, ObjectType>

  /** t is cached under its own key, and resolved at a height below h. */
  ghost predicate Lower(c: Cache, heights: map<string, nat>, t: ObjectType, h: nat) {
    var k := Key(t.name);
    k in c && c[k] == t && k in heights && heights[k] < h
  }

  ghost predicate LowerAttrs(c: Cache, heights: map<string, nat>, attrs: seq<AttrMeta>, h: nat) {
    forall i :: 0 <= i < |attrs| ==> attrs[i].objType != null ==> Lower(c, heights, attrs[i].objType, h)
  }

  /** Nothing cached is lost or changes height, and whatever was added is resolved. */
  ghost predicate Grows(c: Cache, heights: map<string, nat>, c': Cache, heights': map<string, nat>) {
    (forall k :: k in c ==> k in c' && c'[k] == c[k])
    && (forall k :: k in heights ==> k in heights' && heights'[k] == heights[k])
    && c'.Keys - heights'.Keys == c.Keys - heights.Keys
  }

  lemma KeepsLower(c: Cache, heights: map<string, nat>, c': Cache, heights': map<string, nat>, attrs: seq<AttrMeta>, h: nat, g: nat)
    requires LowerAttrs(c, heights, attrs, h) && Grows(c, heights, c', heights') && h <= g
    ensures LowerAttrs(c', heights', attrs, g)
  {
    forall i | 0 <= i < |attrs| && attrs[i].objType != null
      ensures Lower(c', heights', attrs[i].objType, g)
    {
      assert Lower(c, heights, attrs[i].objType, h);
    }
  }

  lemma StillLower(c: Cache, heights: map<string, nat>, key: string, h: nat, attrs: seq<AttrMeta>, g: nat)
    requires key !in heights && LowerAttrs(c, heights, attrs, g)
    ensures LowerAttrs(c, heights[key := h], attrs, g)
  {
  }

  /** What was inserted unresolved is resolved in the end. */
  lemma GrowsSealed(c: Cache, heights: map<string, nat>, key: string, t: ObjectType, c': Cache, heights': map<string, nat>, h: nat)
    requires key !in c && key !in heights && Grows(c[key := t], heights, c', heights')
    ensures key in c' && c'[key] == t && key !in heights' && Grows(c, heights, c', heights'[key := h])
  {
    assert c'.Keys - heights'[key := h].Keys == (c'.Keys - heights'.Keys) - {key};
  }

  /** Or it is deleted again. */
  lemma GrowsDropped(c: Cache, heights: map<string, nat>, key: string, t: ObjectType, c': Cache, heights': map<string, nat>)
    requires key !in c && key !in heights && Grows(c[key := t], heights, c', heights')
    ensures key in c' && key !in heights' && Grows(c, heights, c' - {key}, heights')
    ensures c'.Keys - heights'.Keys - {key} == c.Keys - heights.Keys
  {
    assert (c' - {key}).Keys - heights'.Keys == (c'.Keys - heights'.Keys) - {key};
  }

  class Resolver {
    const dict: Dictionary
    var cache: map<string, ObjectType>
    ghost var heights: map<string, nat>   // of the resolved types

    constructor (dict: Dictionary)
      ensures this.dict == dict && cache == map[] && heights == map[] && Valid()
    {
      this.dict, cache, heights := dict, map[], map[];
    }

    /** A resolved type agrees with the dictionary, and every type it refers to is cached, resolved and of lesser height. */
    ghost predicate Settled(t: ObjectType, h: nat)
      reads this, t
    {
      t.Describes(dict) && LowerAttrs(cache, heights, t.attrs, h) && (PlainNames(dict) ==> Fits(dict, t.name, h))
    }

    ghost predicate Valid()
      reads this, cache.Values
    {
      heights.Keys <= cache.Keys
      && (forall k :: k in cache ==> Key(cache[k].name) == k && cache[k].resolved == (k in heights))
      && forall k :: k in heights ==> Settled(cache[k], heights[k])
    }

    /** The keys of the types being resolved right now. */
    ghost function Open(): set<string>
      reads this
    {
      cache.Keys - heights.Keys
    }

    ghost function Unseen(): set<Name>
      reads this
    {
      set n | n in dict && Key(n) !in cache
    }

    /** A type with a finite description fails only behind one that is still being resolved. */
    ghost predicate Excused(name: Name, open: set<string>) {
      PlainNames(dict) && Dotless(name) ==>
        forall n :: Fits(dict, name, n) ==> Behind(open, n)
    }

    ghost predicate Behind(open: set<string>, n: nat) {
      exists u :: Dotless(u) && Key(u) in open && Fits(dict, u, n)
    }

    /** ObjectType: from the cache, or resolved now and cached; null on failure. */
    method Resolve(name: Name) returns (r: ObjectType?)
      requires Valid()
      modifies `cache, `heights
      ensures Valid() && Grows(old(cache), old(heights), cache, heights)
      ensures r != null ==> Key(name) in heights && r == cache[Key(name)]
      ensures r != null && Key(name) !in old(cache) ==> r.name == name
      ensures r == null ==> Key(name) !in heights && Excused(name, old(Open()))
      decreases Unseen(), 4
    {
      hide Key;
      var key := Key(name);
      if key in cache {
        if !cache[key].resolved {
          return null;
        }
        return cache[key];
      }
      r := ResolveNew(name);
    }

    /** A type not in the cache: inserted unresolved, then completed or deleted again. */
    method ResolveNew(name: Name) returns (r: ObjectType?)
      requires Valid() && Key(name) !in cache
      modifies `cache, `heights
      ensures Valid() && Grows(old(cache), old(heights), cache, heights)
      ensures r != null ==> Key(name) in heights && r == cache[Key(name)]
      ensures r != null ==> r.name == name
      ensures r == null ==> Key(name) !in cache && Excused(name, old(Open()))
      decreases Unseen(), 3
    {
      hide Key, Fits, PlainNames, LowerAttrs, Behind, Settled, Grows;
      var key := Key(name);
      ghost var c, hs := cache, heights;
      var t := new ObjectType(name);
      Insert(key, t);
      if t.isXMLType {
        XmlSettled(t);
        NothingGrew(cache, heights);
        GrowsSealed(c, hs, key, t, cache, heights, 1);
        Seal(key, t, 0);
        return t;
      }
      var ok, h := FillIn(t);
      if !ok {
        GrowsDropped(c, hs, key, t, cache, heights);
        Drop(key);
        return null;
      }
      GrowsSealed(c, hs, key, t, cache, heights, h + 1);
      Seal(key, t, h);
      r := t;
    }

    lemma NothingGrew(c: Cache, hs: map<string, nat>)
      ensures Grows(c, hs, c, hs)
    {
    }

    lemma XmlSettled(t: ObjectType)
      requires t.isXMLType && t.name == XMLTYPE && t.attrs == [] && !t.isCollection
      ensures Settled(t, 1)
    {
    }

    method Insert(key: string, t: ObjectType)
      requires Valid() && key !in cache && key == Key(t.name) && !t.resolved
      modifies `cache
      ensures Valid() && cache == old(cache)[key := t] && Open() == old(Open()) + {key}
    {
      hide Key;
      cache := cache[key := t];
    }

    method Drop(key: string)
      requires Valid() && key in Open()
      modifies `cache
      ensures Valid() && cache == old(cache) - {key} && Open() == old(Open()) - {key}
    {
      hide Key;
      cache := cache - {key};
    }

    /** The type is complete: resolved, one level above what it refers to. */
    method Seal(key: string, t: ObjectType, ghost h: nat)
      requires Valid() && key in Open() && cache[key] == t && Settled(t, h + 1)
      modifies t`resolved, `heights
      ensures Valid() && heights == old(heights)[key := h + 1] && Open() == old(Open()) - {key}
    {
      hide Key, Fits, PlainNames, MetasOf, LowerAttrs;
      ghost var hs := heights;
      t.resolved := true;
      heights := heights[key := h + 1];
      forall u, g | LowerAttrs(cache, hs, u, g)
        ensures LowerAttrs(cache, heights, u, g)
      {
        StillLower(cache, hs, key, h + 1, u, g);
      }
    }

    /** resolveObjectType: what the dictionary says of the type, its attributes in order. */
    method FillIn(t: ObjectType) returns (ok: bool, ghost h: nat)
      requires Valid() && Key(t.name) in Open() && cache[Key(t.name)] == t && !t.isXMLType && t.name != XMLTYPE
      requires t.attrs == [] && !t.isCollection
      modifies `cache, `heights, t`attrs, t`isCollection, t`varray
      ensures Valid() && Grows(old(cache), old(heights), cache, heights)
      ensures ok ==> Settled(t, h + 1)
      ensures !ok ==> Excused(t.name, old(Open()) - {Key(t.name)})
      decreases (Unseen() + {t.name}) * dict.Keys, 2
    {
      hide Key;
      h := 0;
      if t.name !in dict {
        return false, 0;
      }
      var e := dict[t.name];
      if e.CollectionEntry? {
        t.isCollection := true;
        if e.elem.None? {
          return false, 0;
        }
        t.varray := e.varray;
      }
      ok, h := FillAttrs(t, Rows(e));
      if !ok && PlainNames(dict) && Dotless(t.name) {
        forall n | Fits(dict, t.name, n)
          ensures Behind(old(Open()) - {Key(t.name)}, n)
        {
          Descend(t.name, old(Open()), n);
        }
      }
    }

    lemma {:induction false} Descend(name: Name, open: set<string>, n: nat)
      requires Dotless(name) && name != XMLTYPE && Fits(dict, name, n)
      requires PlainNames(dict) && ExcusedRows(Rows(dict[name]), open)
      ensures Behind(open - {Key(name)}, n)
    {
      assert FitRows(dict, Rows(dict[name]), n - 1);
      var u :| Dotless(u) && Key(u) in open && Fits(dict, u, n - 1);
      if Key(u) == Key(name) {
        KeysAreNames(u, name);
        Descend(name, open, n - 1);
        var v :| Dotless(v) && Key(v) in open - {Key(name)} && Fits(dict, v, n - 1);
        FitsLonger(dict, v, n - 1, n);
      } else {
        FitsLonger(dict, u, n - 1, n);
      }
    }

    /** The first i rows are done, at height h. */
    ghost predicate Filled(attrs: seq<AttrMeta>, rows: seq<Row>, i: nat, h: nat)
      requires i <= |rows|
      reads this
    {
      MetasOf(rows[..i], attrs) && LowerAttrs(cache, heights, attrs, h + 1) && (PlainNames(dict) ==> FitRows(dict, rows[..i], h))
    }

    ghost predicate ExcusedRow(r: Row, open: set<string>) {
      PlainNames(dict) && (r.Ref? ==> Dotless(r.target)) ==> forall n :: FitRow(dict, r, n) ==> Behind(open, n)
    }

    ghost predicate ExcusedRows(rows: seq<Row>, open: set<string>) {
      PlainNames(dict) ==> forall n :: FitRows(dict, rows, n) ==> Behind(open, n)
    }

    method FillAttrs(t: ObjectType, rows: seq<Row>) returns (ok: bool, ghost h: nat)
      requires Valid() && Key(t.name) in Open() && cache[Key(t.name)] == t && t.attrs == []
      requires t.name in dict && rows == Rows(dict[t.name])
      modifies `cache, `heights, t`attrs
      ensures Valid() && Grows(old(cache), old(heights), cache, heights)
      ensures ok ==> MetasOf(rows, t.attrs) && LowerAttrs(cache, heights, t.attrs, h + 1) && (PlainNames(dict) ==> FitRows(dict, rows, h))
      ensures !ok ==> ExcusedRows(rows, old(Open()))
      decreases (Unseen() + {t.name}) * dict.Keys, 1
    {
      hide Key;
      h := 0;
      var i := 0;
      while i < |rows|
        invariant 0 <= i <= |rows| && Valid() && Grows(old(cache), old(heights), cache, heights)
        invariant Filled(t.attrs, rows, i, h)
      {
        ok, h := AddAttr(t, rows, i, h);
        if !ok {
          return;
        }
        i := i + 1;
      }
      assert rows[..i] == rows;
      ok := true;
    }

    method AddAttr(t: ObjectType, rows: seq<Row>, i: nat, ghost h0: nat) returns (ok: bool, ghost h: nat)
      requires Valid() && Key(t.name) in Open() && cache[Key(t.name)] == t
      requires t.name in dict && rows == Rows(dict[t.name]) && i < |rows| && Filled(t.attrs, rows, i, h0)
      modifies `cache, `heights, t`attrs
      ensures Valid() && Grows(old(cache), old(heights), cache, heights)
      ensures ok ==> Filled(t.attrs, rows, i + 1, h)
      ensures !ok ==> ExcusedRows(rows, old(Open()))
      decreases (Unseen() + {t.name}) * dict.Keys, 0
    {
      hide Key, PlainNames, Fits, FitRow, FitRows, Behind, ExcusedRows, Settled, Lower, MetaOf;
      var a: AttrMeta;
      ghost var g: nat;
      ok, a, g := RowMeta(t.name, rows, i);
      h := h0 + g;
      if ok {
        KeepsLower(old(cache), old(heights), cache, heights, t.attrs, h0 + 1, h + 1);
        FilledSnoc(t.attrs, a, rows, i, h0, g);
        Append(t, a);
      }
    }

    /** attrMeta on row i of a type that is being resolved. */
    method RowMeta(name: Name, rows: seq<Row>, i: nat) returns (ok: bool, a: AttrMeta, ghost h: nat)
      requires Valid() && Key(name) in cache && name in dict && rows == Rows(dict[name]) && i < |rows|
      modifies `cache, `heights
      ensures Valid() && Grows(old(cache), old(heights), cache, heights)
      ensures ok ==> MetaOf(rows[i], a) && LowerAttrs(cache, heights, [a], h + 1) && (PlainNames(dict) ==> FitRow(dict, rows[i], h))
      ensures !ok ==> ExcusedRows(rows, old(Open()))
      decreases Unseen(), 6
    {
      hide Key, Fits, FitRow, Behind, Settled;
      ok, a, h := Meta(rows[i]);
    }

    method Append(t: ObjectType, a: AttrMeta)
      requires Valid() && Key(t.name) in Open() && cache[Key(t.name)] == t
      modifies t`attrs
      ensures Valid() && t.attrs == old(t.attrs) + [a]
    {
      hide Key;
      t.attrs := t.attrs + [a];
    }

    lemma FilledSnoc(attrs: seq<AttrMeta>, a: AttrMeta, rows: seq<Row>, i: nat, h: nat, g: nat)
      requires i < |rows| && MetasOf(rows[..i], attrs) && MetaOf(rows[i], a)
      requires LowerAttrs(cache, heights, attrs, h + g + 1) && LowerAttrs(cache, heights, [a], g + 1)
      requires PlainNames(dict) ==> FitRows(dict, rows[..i], h) && FitRow(dict, rows[i], g)
      ensures Filled(attrs + [a], rows, i + 1, h + g)
    {
      hide Key, PlainNames;
      RowsSnoc(rows, i, h, g);
      forall k | 0 <= k < |attrs + [a]| && (attrs + [a])[k].objType != null
        ensures Lower(cache, heights, (attrs + [a])[k].objType, h + g + 1)
      {
        if k == |attrs| {
          assert Lower(cache, heights, [a][0].objType, g + 1);
        }
      }
    }

    lemma RowsSnoc(rows: seq<Row>, i: nat, h: nat, g: nat)
      requires i < |rows|
      ensures rows[..i + 1] == rows[..i] + [rows[i]]
      ensures FitRows(dict, rows[..i], h) && FitRow(dict, rows[i], g) ==> FitRows(dict, rows[..i + 1], h + g)
    {
      if FitRows(dict, rows[..i], h) && FitRow(dict, rows[i], g) {
        FitRowsLonger(dict, rows[..i], h, h + g);
        assert FitRows(dict, [rows[i]], g);
        FitRowsLonger(dict, [rows[i]], g, h + g);
        var all := rows[..i + 1];
        forall k | 0 <= k < |all|
          ensures FitRow(dict, all[k], h + g)
        {
          assert k < i ==> FitRow(dict, rows[..i][k], h + g);
          assert FitRow(dict, [rows[i]][0], h + g);
        }
      }
    }

    /** attrMeta: references are resolved, base types looked up. */
    method Meta(r: Row) returns (ok: bool, a: AttrMeta, ghost h: nat)
      requires Valid()
      modifies `cache, `heights
      ensures Valid() && Grows(old(cache), old(heights), cache, heights)
      ensures ok ==> MetaOf(r, a) && LowerAttrs(cache, heights, [a], h + 1)
      ensures ok && PlainNames(dict) && (r.Ref? ==> Dotless(r.target)) ==> FitRow(dict, r, h)
      ensures !ok ==> ExcusedRow(r, old(Open()))
      decreases Unseen(), 5
    {
      hide Key;
      a, h := AttrMeta(r.attr, 0, null), 0;
      match r
      case Base(name, typeNum) =>
        ok := typeNum.Some?;
        if ok {
          a := AttrMeta(name, typeNum.value, null);
        }
      case Ref(name, target) =>
        var t := Resolve(target);
        ok := t != null;
        if ok {
          a := AttrMeta(name, TYPE_OBJECT, t);
          h := heights[Key(target)];
          if PlainNames(dict) && Dotless(target) {
            KeysAreNames(t.name, target);
          }
        }
    }

    /**
      * A call with nothing in progress leaves nothing in progress, whether it succeeds or fails. It succeeds
      * exactly on the types that unfold to base types in finitely many levels: missing, unsupported and
      * recursive ones fail.
      */
    method ObjectType(name: Name) returns (r: ObjectType?)
      requires Valid() && Open() == {}
      modifies `cache, `heights
      ensures Valid() && Open() == {} && Grows(old(cache), old(heights), cache, heights)
      ensures r != null ==> Key(name) in cache && r == cache[Key(name)] && r.resolved && Key(r.name) == Key(name)
      ensures r == null ==> Key(name) !in cache
      ensures PlainNames(dict) && Dotless(name) ==> (r != null <==> Finite(dict, name))
      ensures PlainNames(dict) && Dotless(name) && r != null ==> r.name == name
    {
      r := Resolve(name);
      if r == null {
        assert forall k :: k in cache && k !in heights ==> k in Open();
      } else if PlainNames(dict) && Dotless(name) {
        KeysAreNames(r.name, name);
        assert Fits(dict, name, heights[Key(name)]);
      }
    }

    ghost predicate Links(t: ObjectType, u: ObjectType)
      reads t
    {
      exists i :: 0 <= i < |t.attrs| && t.attrs[i].objType == u
    }

    lemma ReferenceIsLower(t: ObjectType, u: ObjectType, h: nat)
      requires Valid() && Lower(cache, heights, t, h) && Links(t, u)
      ensures Lower(cache, heights, u, heights[Key(t.name)])
    {
      hide Key, Fits, PlainNames, MetasOf;
      assert Settled(t, heights[Key(t.name)]);
    }

    /** Following references from a resolved type meets only cached, resolved types of ever lesser height: never the first again. */
    lemma {:induction false} ReferencesDescend(path: seq<ObjectType>, k: nat, h: nat)
      requires Valid() && k < |path| && Lower(cache, heights, path[0], h)
      requires forall j :: 0 < j < |path| ==> Links(path[j - 1], path[j])
      ensures Lower(cache, heights, path[k], h)
      ensures k > 0 ==> heights[Key(path[k].name)] < heights[Key(path[0].name)] && path[k] != path[0]
    {
      hide Key, Valid, Links;
      if k > 0 {
        ReferencesDescend(path, k - 1, h);
        ReferenceIsLower(path[k - 1], path[k], h);
      }
    }
  }

  /** Dotted schema names: a type that the dictionary does not have resolves, to another one. */
  method DottedNamesClash() returns (found: ObjectType?)
    ensures found != null && found.name == Name("A", "B.C")
  {
    var a, b := Name("A", "B.C"), Name("A.B", "C");
    DottedKeysClash();
    var d: Dictionary := map[a := ObjectEntry([])];
    assert PlainNames(d) && Dotless(a);
    assert FitRows(d, [], 0);
    assert Fits(d, a, 1);
    var resolver := new Resolver(d);
    var first := resolver.ObjectType(a);
    found := resolver.ObjectType(b);
  }
}
