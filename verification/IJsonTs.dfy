/** Reading and deleting in the frontend's version (frontend/util/ijson.ts: getPath, setPathInternal with
    `remove`, removeFromArr). Undefined values, missing keys and holes in arrays are all null here. */
module IJsonTs {
  import opened Wrappers
  import opened IJson

  /** getPath on a path of strings and integers */
  function TsGet(obj: Json, path: Path): Json
    decreases |path|
  {
    if path == [] then obj
    else if obj.Null? then Null
    else match path[0]
      case Key(k) => if obj.Obj? then TsGet(Field(obj.fields, k), path[1..]) else Null
      case Idx(i) => if obj.Arr? then TsGet(if 0 <= i < |obj.elems| then obj.elems[i] else Null, path[1..]) else Null
      case Other => Null
  }

  /** isEmpty, of an object */
  function OrNull(fields: map<string, Json>): Json {
    if fields == map[] then Null else Obj(fields)
  }

  function RemoveFromArr(elems: seq<Json>, i: nat): Json {
    if i >= |elems| then Arr(elems)
    else if i == |elems| - 1 then (if i == 0 then Null else Arr(elems[..i]))
    else Arr(elems[i := Null])
  }

  /** setPathInternal with `remove`; None is an exception. */
  function Delete(obj: Json, path: Path): Option<Json>
    decreases |path|
  {
    if path == [] then Some(Null)
    else match path[0]
      case Key(k) =>
        if obj.Null? then Some(Null)
        else if !obj.Obj? then None
        else if |path| == 1 then Some(OrNull(obj.fields - {k}))
        else
          var r := Delete(Field(obj.fields, k), path[1..]);
          if r.None? then None
          else if r.value.Null? then Some(OrNull(obj.fields - {k}))
          else Some(Obj(obj.fields[k := r.value]))
      case Idx(i) =>
        if i < 0 then None
        else if obj.Null? then Some(Null)
        else if !obj.Arr? then None
        else if |path| == 1 then Some(RemoveFromArr(obj.elems, i))
        else
          var r := Delete(if i < |obj.elems| then obj.elems[i] else Null, path[1..]);
          if r.None? then None
          else if r.value.Null? then Some(RemoveFromArr(obj.elems, i))
          else Some(Arr(Grown(obj.elems, i)[i := r.value]))
      case Other => None
  }

  // ---------------------------------------------------------------- one step

  lemma TsGetStep(d: Json, q: Path)
    requires q != []
    ensures TsGet(d, q) == if Fits(d, q[0]) then TsGet(Child(d, q[0]), q[1..]) else Null
  {
    NullReads(q[1..]);
  }

  lemma {:induction false} NullReads(q: Path)
    ensures TsGet(Null, q) == Null
  {
  }

  /** The container without a child. */
  function Without(d: Json, part: Part): Json
    requires Fits(d, part)
  {
    if d.Null? then Null
    else match part
      case Key(k) => OrNull(d.fields - {k})
      case Idx(i) => RemoveFromArr(d.elems, i)
  }

  /** The container once the child's deletion is known. */
  function DeleteFrom(d: Json, part: Part, r: Option<Json>): Option<Json>
    requires Fits(d, part)
  {
    if d.Null? then Some(Null)
    else if r.None? then None
    else if r.value.Null? then Some(Without(d, part))
    else Some(WithChild(d, part, r.value))
  }

  lemma DeleteStep(d: Json, p: Path)
    requires p != []
    ensures !Fits(d, p[0]) ==> Delete(d, p).None?
    ensures Fits(d, p[0]) ==> Delete(d, p) == DeleteFrom(d, p[0], Delete(Child(d, p[0]), p[1..]))
  {
  }

  /** Deleting a child makes it read as null and leaves its siblings alone; a part that no longer fits read as
      null before. */
  lemma {:induction false} WithoutLaws(d: Json, a: Part, b: Part)
    requires Fits(d, a)
    ensures Fits(Without(d, a), a) && Child(Without(d, a), a) == Null
    ensures a != b && Fits(d, b) ==> Fits(Without(d, a), b) && Child(Without(d, a), b) == Child(d, b)
    ensures a != b && Fits(Without(d, a), b) && !Fits(d, b) ==> Child(Without(d, a), b) == Null
    ensures Without(Without(d, a), a) == Without(d, a)
  {
    match a
    case Key(k) =>
      if d.Obj? {
        assert (d.fields - {k}) - {k} == d.fields - {k};
        if b.Key? && b.k in d.fields && a != b {
          assert b.k in d.fields - {k};
        }
      }
    case Idx(i) =>
      if d.Arr? && i < |d.elems| - 1 {
        assert d.elems[i := Null][i := Null] == d.elems[i := Null];
      }
  }

  // ---------------------------------------------------------------- laws of deletion

  predicate IsPrefix(p: Path, q: Path) {
    |p| <= |q| && q[..|p|] == p
  }

  /** A value that is not a container; null if it is. */
  function Leaf(v: Json): Json {
    if v.Obj? || v.Arr? then Null else v
  }

  /** After a successful delete the path reads as null. */
  lemma {:induction false} DeletedReadsNull(d: Json, p: Path)
    requires Delete(d, p).Some?
    ensures TsGet(Delete(d, p).value, p) == Null
    decreases |p|
  {
    if p != [] {
      hide Delete, TsGet, Without, WithChild, Child;
      DeleteStep(d, p);
      TsGetStep(Delete(d, p).value, p);
      NullReads(p[1..]);
      ChildOfNull(p[0]);
      if !d.Null? {
        var r := Delete(Child(d, p[0]), p[1..]);
        DeletedReadsNull(Child(d, p[0]), p[1..]);
        WithoutLaws(d, p[0], p[0]);
        ChildLaws(d, p[0], r.value, p[0], Null);
      }
    }
  }

  lemma ChildOfNull(part: Part)
    ensures Fits(Null, part) ==> Child(Null, part) == Null
  {
  }

  /** What a diverging path reads is unchanged. */
  lemma {:induction false} DeleteKeepsDiverging(d: Json, p: Path, q: Path)
    requires Delete(d, p).Some? && Diverges(p, q)
    ensures TsGet(Delete(d, p).value, q) == TsGet(d, q)
    decreases |p|
  {
    hide Delete, TsGet, Without, WithChild, Child;
    DeleteStep(d, p);
    TsGetStep(d, q);
    TsGetStep(Delete(d, p).value, q);
    if !d.Null? {
      var r := Delete(Child(d, p[0]), p[1..]);
      WithoutLaws(d, p[0], q[0]);
      ChildLaws(d, p[0], r.value, q[0], Null);
      NullReads(q[1..]);
      if p[0] == q[0] {
        DeleteKeepsDiverging(Child(d, p[0]), p[1..], q[1..]);
      }
    }
  }

  /** A delete removes exactly the leaves at and below its path, and no other leaf of the document. */
  lemma {:induction false} DeleteRemovesLeaves(d: Json, p: Path, q: Path)
    requires Delete(d, p).Some?
    ensures Leaf(TsGet(Delete(d, p).value, q)) == if IsPrefix(p, q) then Null else Leaf(TsGet(d, q))
    decreases |p|
  {
    if p == [] {
      NullReads(q);
    } else if q == [] {
      DeleteStep(d, p);
    } else {
      hide Delete, TsGet, Without, WithChild, Child;
      DeleteStep(d, p);
      TsGetStep(d, q);
      TsGetStep(Delete(d, p).value, q);
      NullReads(q[1..]);
      ChildOfNull(q[0]);
      PrefixStep(p, q);
      if !d.Null? {
        var r := Delete(Child(d, p[0]), p[1..]);
        WithoutLaws(d, p[0], q[0]);
        ChildLaws(d, p[0], r.value, q[0], Null);
        if p[0] == q[0] {
          DeleteRemovesLeaves(Child(d, p[0]), p[1..], q[1..]);
        }
      }
    }
  }

  lemma PrefixStep(p: Path, q: Path)
    requires p != [] && q != []
    ensures IsPrefix(p, q) <==> p[0] == q[0] && IsPrefix(p[1..], q[1..])
  {
    if IsPrefix(p, q) {
      assert q[1..][..|p[1..]|] == q[..|p|][1..];
    }
    if p[0] == q[0] && IsPrefix(p[1..], q[1..]) {
      assert q[..|p|] == [q[0]] + q[1..][..|p[1..]|];
    }
  }

  /** Deleting a path that is missing already changes no leaf: at most it turns empty containers into null. */
  lemma {:induction false} DeleteMissing(d: Json, p: Path, q: Path)
    requires Delete(d, p).Some? && TsGet(d, p).Null?
    ensures Leaf(TsGet(Delete(d, p).value, q)) == Leaf(TsGet(d, q))
  {
    DeleteRemovesLeaves(d, p, q);
    if IsPrefix(p, q) {
      ReadsBelow(d, p, q);
      NullReads(q[|p|..]);
    }
  }

  /** Reading a path is reading its tail in what its head reads. */
  lemma {:induction false} ReadsBelow(d: Json, p: Path, q: Path)
    requires IsPrefix(p, q)
    ensures TsGet(d, q) == TsGet(TsGet(d, p), q[|p|..])
    decreases |p|
  {
    if p != [] {
      PrefixStep(p, q);
      TsGetStep(d, p);
      TsGetStep(d, q);
      NullReads(q[|p|..]);
      if Fits(d, p[0]) {
        ReadsBelow(Child(d, p[0]), p[1..], q[1..]);
        assert q[1..][|p[1..]|..] == q[|p|..];
      }
    }
  }

  /** Deleting twice is deleting once. */
  lemma {:induction false} DeleteIdempotent(d: Json, p: Path)
    requires Delete(d, p).Some?
    ensures Delete(Delete(d, p).value, p) == Delete(d, p)
    decreases |p|
  {
    if p != [] {
      hide Delete, Without, WithChild, Child;
      DeleteStep(d, p);
      DeleteStep(Delete(d, p).value, p);
      if !d.Null? {
        var r := Delete(Child(d, p[0]), p[1..]);
        DeleteIdempotent(Child(d, p[0]), p[1..]);
        WithoutLaws(d, p[0], p[0]);
        ChildLaws(d, p[0], r.value, p[0], r.value);
        NotNull(d, p[0], r.value);
        DeleteOfNull(p[1..]);
      }
    }
  }

  lemma NotNull(d: Json, part: Part, x: Json)
    requires Fits(d, part)
    ensures !WithChild(d, part, x).Null?
  {
  }

  lemma DeleteOfNull(p: Path)
    ensures Delete(Null, p).Some? ==> Delete(Null, p).value == Null
    ensures Delete(Null, p).None? <==> p != [] && !Fits(Null, p[0])
  {
  }

  // ---------------------------------------------------------------- what is left of the container

  /** Deleting an entry below what a path reads. */
  lemma {:induction false} DeleteBelow(d: Json, p: Path, part: Part)
    requires Fits(TsGet(d, p), part) && !TsGet(d, p).Null?
    ensures Delete(d, p + [part]).Some?
    ensures TsGet(Delete(d, p + [part]).value, p) == Delete(TsGet(d, p), [part]).value
    decreases |p|
  {
    if p == [] {
      assert p + [part] == [part];
    } else {
      var q := p + [part];
      assert q[0] == p[0] && q[1..] == p[1..] + [part];
      TsGetStep(d, p);
      DeleteBelow(Child(d, p[0]), p[1..], part);
      hide Delete, TsGet, WithChild, Child, Without;
      DeleteStep(d, q);
      var r := Delete(Child(d, p[0]), q[1..]).value;
      TsGetStep(Delete(d, q).value, p);
      NullReads(p[1..]);
      ChildOfNull(p[0]);
      WithoutLaws(d, p[0], p[0]);
      ChildLaws(d, p[0], r, p[0], Null);
    }
  }

  /** Deleting an element of an array that a path reads: the last one shortens the array, the only one leaves nothing,
      any other leaves a hole, and one that is not there changes nothing. */
  lemma {:induction false} DeleteElement(d: Json, p: Path, i: nat)
    requires TsGet(d, p).Arr?
    ensures Delete(d, p + [Idx(i)]).Some?
    ensures var xs := TsGet(d, p).elems;
      TsGet(Delete(d, p + [Idx(i)]).value, p) ==
        if i == |xs| - 1 then (if i == 0 then Null else Arr(xs[..i]))
        else if i < |xs| then Arr(xs[i := Null])
        else Arr(xs)
  {
    DeleteBelow(d, p, Idx(i));
  }

  /** Deleting a key of an object that a path reads: the last key leaves nothing. */
  lemma {:induction false} DeleteKey(d: Json, p: Path, k: string)
    requires TsGet(d, p).Obj?
    ensures Delete(d, p + [Key(k)]).Some?
    ensures var fields := TsGet(d, p).fields;
      TsGet(Delete(d, p + [Key(k)]).value, p) == if fields.Keys <= {k} then Null else Obj(fields - {k})
  {
    DeleteBelow(d, p, Key(k));
    var fields := TsGet(d, p).fields;
    if fields.Keys <= {k} {
      assert (fields - {k}).Keys == {};
    } else {
      var j :| j in fields.Keys && j != k;
      assert j in fields - {k};
    }
  }

  /** A delete that leaves nothing of a container deletes the container, and so on upwards. */
  lemma {:induction false} DeleteUpwards(d: Json, p: Path, part: Part)
    requires Fits(TsGet(d, p), part) && !TsGet(d, p).Null? && Delete(TsGet(d, p), [part]) == Some(Null)
    ensures Delete(d, p + [part]) == Delete(d, p)
    decreases |p|
  {
    if p == [] {
      assert p + [part] == [part];
    } else {
      var q := p + [part];
      assert q[0] == p[0] && q[1..] == p[1..] + [part];
      TsGetStep(d, p);
      DeleteUpwards(Child(d, p[0]), p[1..], part);
      hide Delete, TsGet, WithChild, Child, Without;
      DeleteStep(d, q);
      DeleteStep(d, p);
    }
  }
}
