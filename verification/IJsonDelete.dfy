/** Deleting in the backend's version (pkg/ijson/ijson.go: setPathInternal with Remove), and exactly when it does
    what the frontend's version does. */
module IJsonDelete {
  import opened Wrappers
  import opened IJson
  import opened IJsonTs

  /** Remove returns a document and an error, or indexes out of range. */
  datatype Removed = Removed(doc: Json, err: Option<Error>) | OutOfRange

  /** setPathInternal with Remove, as commands call it: without Force. */
  function Remove(data: Json, path: Path): Removed
    decreases |path|
  {
    if path == [] then Removed(Null, None)
    else match path[0]
      case Key(k) =>
        if data.Null? then Removed(Null, None)
        else if !data.Obj? then Removed(Null, Some(NotAMap))
        else if |path| == 1 then Removed(OrNull(data.fields - {k}), None)
        else if k !in data.fields then Removed(data, None)
        else
          var r := Remove(data.fields[k], path[1..]);
          if r.OutOfRange? then OutOfRange
          else if r.doc.Null? then Removed(OrNull(data.fields - {k}), None)
          else Removed(Obj(data.fields[k := r.doc]), r.err)
      case Idx(i) =>
        if i < 0 then Removed(Null, Some(NegativeIndex))
        else if data.Null? then Removed(Null, None)
        else if !data.Arr? then Removed(Null, Some(NotAnArray))
        else if |path| == 1 then
          if i < |data.elems| then Removed(RemoveFromArr(data.elems, i), None) else OutOfRange
        else if i >= |data.elems| then Removed(Null, None)
        else
          var r := Remove(data.elems[i], path[1..]);
          if r.OutOfRange? then OutOfRange
          else if r.doc.Null? && i == |data.elems| - 1 then Removed(RemoveFromArr(data.elems, i), None)
          else Removed(Arr(data.elems[i := r.doc]), r.err)
      case Other => Removed(Null, Some(BadPart))
  }

  /** Both versions succeed with the same document. */
  predicate Agree(d: Json, p: Path) {
    Delete(d, p).Some? && Remove(d, p) == Removed(Delete(d, p).value, None)
  }

  /** Following the path from d meets a container of the right kind at every element, no array is too short, and
      the walk ends early only at a nil, or at a key missing from a map that is not empty. */
  predicate CleanWalk(d: Json, p: Path) {
    p != [] ==>
      && Fits(d, p[0])
      && (!d.Null? ==>
          match p[0]
          case Key(k) =>
            if k in d.fields then CleanWalk(d.fields[k], p[1..])
            else |p| > 1 ==> d.fields != map[] && Fits(Null, p[1])
          case Idx(i) => i < |d.elems| && CleanWalk(d.elems[i], p[1..])
          case Other => false)
  }

  /** The two versions of delete agree exactly on a clean walk. */
  lemma {:induction false} AgreeIffClean(d: Json, p: Path)
    ensures Agree(d, p) <==> CleanWalk(d, p)
    decreases |p|
  {
    if p != [] && Fits(d, p[0]) && !d.Null? {
      var rest := p[1..];
      match p[0]
      case Key(k) =>
        if k in d.fields {
          AgreeIffClean(d.fields[k], rest);
          ErrorsAgree(d.fields[k], rest);
          KeyInjective(d.fields, k, Delete(d.fields[k], rest), Remove(d.fields[k], rest));
        } else {
          assert d == Obj(d.fields) && d.fields - {k} == d.fields;
          if |p| > 1 {
            DeleteStep(Null, rest);
            assert Delete(d, p) == (if Fits(Null, p[1]) then Some(OrNull(d.fields)) else None);
          }
        }
      case Idx(i) =>
        if i < |d.elems| {
          AgreeIffClean(d.elems[i], rest);
          ErrorsAgree(d.elems[i], rest);
          IndexInjective(d.elems, i, Delete(d.elems[i], rest), Remove(d.elems[i], rest));
        }
      case Other =>
    }
  }

  /** What the backend reports as an error is an exception in the frontend. */
  lemma {:induction false} ErrorsAgree(d: Json, p: Path)
    ensures Remove(d, p).Removed? && Remove(d, p).err.Some? ==> Delete(d, p).None?
    decreases |p|
  {
    if p != [] && Fits(d, p[0]) && !d.Null? {
      match p[0]
      case Key(k) => if k in d.fields { ErrorsAgree(d.fields[k], p[1..]); }
      case Idx(i) => if i < |d.elems| { ErrorsAgree(d.elems[i], p[1..]); }
      case Other =>
    }
  }

  lemma KeyInjective(fields: map<string, Json>, k: string, x: Option<Json>, y: Removed)
    requires k in fields
    ensures x.Some? && y.Removed? && !x.value.Null? ==>
              OrNull(fields - {k}) != Obj(fields[k := x.value]) && fields[k := x.value][k] == x.value
    ensures y.Removed? && !y.doc.Null? ==>
              OrNull(fields - {k}) != Obj(fields[k := y.doc]) && fields[k := y.doc][k] == y.doc
  {
    if y.Removed? {
      assert k in fields[k := y.doc];
      assert k !in fields - {k};
    }
  }

  lemma IndexInjective(elems: seq<Json>, i: nat, x: Option<Json>, y: Removed)
    requires i < |elems|
    ensures x.Some? ==> elems[i := x.value][i] == x.value
    ensures y.Removed? ==> elems[i := y.doc][i] == y.doc
    ensures |elems[..i]| != |elems|
  {
  }

  /** On a clean walk the backend's delete has the laws of a delete. */
  lemma {:induction false} CleanRemoveLaws(d: Json, p: Path, q: Path)
    requires CleanWalk(d, p)
    ensures Remove(d, p).Removed? && Remove(d, p).err.None?
    ensures TsGet(Remove(d, p).doc, p) == Null
    ensures Diverges(p, q) ==> TsGet(Remove(d, p).doc, q) == TsGet(d, q)
  {
    AgreeIffClean(d, p);
    DeletedReadsNull(d, p);
    if Diverges(p, q) {
      DeleteKeepsDiverging(d, p, q);
    }
  }

  /** Deleting below a value of the wrong kind deletes that value's whole map entry, and reports success. */
  lemma {:induction false} WrongKindDropsEntry(fields: map<string, Json>, k: string, p: Path)
    requires k in fields && p != [] && !Fits(fields[k], p[0])
    ensures Remove(Obj(fields), [Key(k)] + p) == Removed(OrNull(fields - {k}), None)
  {
    var path := [Key(k)] + p;
    assert path[1..] == p && Remove(fields[k], p).doc.Null?;
  }

  /** Deleting below a missing array element deletes the whole array, and reports success. */
  lemma {:induction false} MissingElementDropsArray(fields: map<string, Json>, k: string, i: nat, p: Path)
    requires k in fields && fields[k].Arr? && i >= |fields[k].elems| && p != []
    ensures Remove(Obj(fields), [Key(k), Idx(i)] + p) == Removed(OrNull(fields - {k}), None)
  {
    var path := [Key(k), Idx(i)] + p;
    assert path[1..][0] == Idx(i);
  }
}
