/** Paths into ijson documents (pkg/ijson/ijson.go: GetPath, SetPath without Remove, CombineFn_ArrayAppend). */
module IJson {
  import opened Wrappers

  /** A document. Numbers are left abstract as integers. */
  datatype Json = Null | Bool(b: bool) | Num(n: int) | Str(s: string) | Arr(elems: seq<Json>)
    | Obj(fields: map<string, Json>)

  /** A path element: a key, an index, or a value of another type (such as a float64 index). */
  datatype Part = Key(k: string) | Idx(i: int) | Other

  type Path = seq<Part>

  datatype Error = BadPart | NegativeIndex | NotAMap | NotAnArray

  datatype Got = Value(v: Json) | GetError(e: Error)

  /** SetPath returns a value together with an error: on an error deep in the document it returns the containers it
      has already changed. */
  datatype SetResult = SetResult(doc: Json, err: Option<Error>)

  datatype Combine = Replace | Append

  /** GetPath */
  function GetPath(data: Json, path: Path): Got
    decreases |path|
  {
    if data.Null? then Value(Null)
    else if path == [] then Value(data)
    else match path[0]
      case Key(k) =>
        if !data.Obj? then Value(Null) else GetPath(Field(data.fields, k), path[1..])
      case Idx(i) =>
        if i < 0 then GetError(NegativeIndex)
        else if !data.Arr? || i >= |data.elems| then Value(Null)
        else GetPath(data.elems[i], path[1..])
      case Other => GetError(BadPart)
  }

  /** A missing key reads as nil. */
  function Field(fields: map<string, Json>, k: string): Json {
    if k in fields then fields[k] else Null
  }

  /** An array long enough to have an element i, padded with nil. */
  function Grown(elems: seq<Json>, i: nat): (r: seq<Json>)
    ensures |r| > i && |r| >= |elems|
  {
    if i < |elems| then elems else elems + seq(i + 1 - |elems|, _ => Null)
  }

  /** CombineFn_ArrayAppend, or plain replacement. */
  function CombineWith(combine: Combine, data: Json, value: Json, force: bool): SetResult {
    match combine
    case Replace => SetResult(value, None)
    case Append =>
      if data.Null? then SetResult(Arr([value]), None)
      else if data.Arr? then SetResult(Arr(data.elems + [value]), None)
      else if force then SetResult(Arr([value]), None)
      else SetResult(Null, Some(NotAnArray))
  }

  /** setPathInternal without Remove and with an unlimited budget. */
  function SetPath(data: Json, path: Path, value: Json, combine: Combine, force: bool): SetResult
    decreases |path|
  {
    if path == [] then CombineWith(combine, data, value, force)
    else match path[0]
      case Key(k) =>
        if !data.Null? && !data.Obj? && !force then SetResult(Null, Some(NotAMap))
        else
          var fields := if data.Obj? then data.fields else map[];
          var r := SetPath(Field(fields, k), path[1..], value, combine, force);
          SetResult(Obj(fields[k := r.doc]), r.err)
      case Idx(i) =>
        if i < 0 then SetResult(Null, Some(NegativeIndex))
        else if !data.Null? && !data.Arr? && !force then SetResult(Null, Some(NotAnArray))
        else
          var elems := Grown(if data.Arr? then data.elems else [], i);
          var r := SetPath(elems[i], path[1..], value, combine, force);
          SetResult(Arr(elems[i := r.doc]), r.err)
      case Other => SetResult(Null, Some(BadPart))
  }

  /** What a path reads as; an invalid path reads as nil. */
  function GetValue(data: Json, path: Path): Json {
    match GetPath(data, path)
    case Value(v) => v
    case GetError(_) => Null
  }

  predicate ValidPath(path: Path) {
    forall i :: 0 <= i < |path| ==> !path[i].Other? && (path[i].Idx? ==> path[i].i >= 0)
  }

  /** Neither path is a prefix of the other. */
  predicate Diverges(p: Path, q: Path) {
    p != [] && q != [] && (p[0] != q[0] || Diverges(p[1..], q[1..]))
  }

  /** A valid path never gives an error. */
  lemma {:induction false} ValidPathReads(d: Json, p: Path)
    requires ValidPath(p)
    ensures GetPath(d, p).Value?
    decreases |p|
  {
    if !d.Null? && p != [] {
      match p[0]
      case Key(k) => if d.Obj? { ValidPathReads(Field(d.fields, k), p[1..]); }
      case Idx(i) => if d.Arr? && i < |d.elems| { ValidPathReads(d.elems[i], p[1..]); }
      case Other =>
    }
  }

  // ---------------------------------------------------------------- one step down a path

  /** The path element can be followed from d: d is nil or a container of the right kind. */
  predicate Fits(d: Json, part: Part) {
    match part
    case Key(_) => d.Null? || d.Obj?
    case Idx(i) => i >= 0 && (d.Null? || d.Arr?)
    case Other => false
  }

  function Child(d: Json, part: Part): Json
    requires Fits(d, part)
  {
    match part
    case Key(k) => if d.Obj? then Field(d.fields, k) else Null
    case Idx(i) => if d.Arr? && i < |d.elems| then d.elems[i] else Null
  }

  function WithChild(d: Json, part: Part, x: Json): Json
    requires Fits(d, part)
  {
    match part
    case Key(k) => Obj((if d.Obj? then d.fields else map[])[k := x])
    case Idx(i) => Arr(Grown(if d.Arr? then d.elems else [], i)[i := x])
  }

  lemma SetStep(d: Json, p: Path, v: Json, c: Combine, force: bool)
    requires p != []
    ensures Fits(d, p[0]) ==>
      var r := SetPath(Child(d, p[0]), p[1..], v, c, force);
      SetPath(d, p, v, c, force) == SetResult(WithChild(d, p[0], r.doc), r.err)
    ensures !Fits(d, p[0]) && !force ==> SetPath(d, p, v, c, force).err.Some?
  {
  }

  /** With force, something in the way is treated as nil. */
  lemma ForceStep(d: Json, p: Path, v: Json, c: Combine)
    requires p != []
    ensures !Fits(d, p[0]) ==> if Fits(Null, p[0]) then SetPath(d, p, v, c, true) == SetPath(Null, p, v, c, true)
                               else SetPath(d, p, v, c, true).err.Some?
  {
  }

  lemma GetStep(d: Json, q: Path)
    requires q != []
    ensures GetValue(d, q) == if Fits(d, q[0]) then GetValue(Child(d, q[0]), q[1..]) else Null
    ensures Fits(d, q[0]) && GetPath(Child(d, q[0]), q[1..]).Value? ==> GetPath(d, q) == GetPath(Child(d, q[0]), q[1..])
  {
  }

  /** Writing a child, and reading or writing the same or another child of the container afterwards. */
  lemma {:induction false} ChildLaws(d: Json, a: Part, x: Json, b: Part, y: Json)
    requires Fits(d, a)
    ensures Fits(WithChild(d, a, x), a) && Child(WithChild(d, a, x), a) == x &&
      WithChild(WithChild(d, a, x), a, y) == WithChild(d, a, y)
    ensures a != b && Fits(WithChild(d, a, x), b) ==> Fits(d, b) && Child(WithChild(d, a, x), b) == Child(d, b)
    ensures a != b && Fits(d, b) && !Fits(WithChild(d, a, x), b) ==> Child(d, b) == Null
    ensures a != b && Fits(WithChild(d, a, x), b) ==> WithChild(WithChild(d, a, x), b, y) == TwoChildren(d, b, y, a, x)
  {
    match a
    case Key(k) =>
      var fields := if d.Obj? then d.fields else map[];
      assert fields[k := x][k := y] == fields[k := y];
      if b.Key? && a != b {
        assert fields[k := x][b.k := y] == fields[b.k := y][k := x];
      }
    case Idx(i) =>
      var elems := if d.Arr? then d.elems else [];
      assert Grown(elems, i)[i := x][i := y] == Grown(elems, i)[i := y];
      if b.Idx? && b.i >= 0 && a != b {
        CommuteIndices(elems, i, b.i, x, y);
      }
  }

  function TwoChildren(d: Json, a: Part, x: Json, b: Part, y: Json): Json
    requires Fits(d, a) && Fits(WithChild(d, a, x), b)
  {
    WithChild(WithChild(d, a, x), b, y)
  }

  lemma {:induction false} CommuteIndices(elems: seq<Json>, i: nat, j: nat, x: Json, y: Json)
    requires i != j
    ensures Grown(Grown(elems, i)[i := x], j)[j] == Grown(elems, j)[j]
    ensures Grown(Grown(elems, j)[j := y], i)[i] == Grown(elems, i)[i]
    ensures Grown(Grown(elems, i)[i := x], j)[j := y] == Grown(Grown(elems, j)[j := y], i)[i := x]
  {
  }

  // ---------------------------------------------------------------- lens laws

  /** A get after a successful set returns the value set, or the combination of it with what was there. */
  lemma {:induction false} GetAfterSet(d: Json, p: Path, v: Json, combine: Combine, force: bool)
    requires SetPath(d, p, v, combine, force).err.None?
    ensures GetPath(SetPath(d, p, v, combine, force).doc, p) ==
      Value(CombineWith(combine, GetValue(d, p), v, force).doc)
    decreases |p|, !d.Null?
  {
    if p != [] {
      SetStep(d, p, v, combine, force);
      GetStep(d, p);
      if Fits(d, p[0]) {
        var r := SetPath(Child(d, p[0]), p[1..], v, combine, force).doc;
        GetAfterSet(Child(d, p[0]), p[1..], v, combine, force);
        ChildLaws(d, p[0], r, p[0], r);
        GetStep(WithChild(d, p[0], r), p);
      } else {
        ForceStep(d, p, v, combine);
        GetAfterSet(Null, p, v, combine, force);
        GetStep(Null, p);
      }
    }
  }

  /** A successful set does not change what any diverging path reads. */
  lemma {:induction false} SetKeepsDiverging(d: Json, p: Path, v: Json, combine: Combine, q: Path)
    requires SetPath(d, p, v, combine, false).err.None? && Diverges(p, q)
    ensures GetValue(SetPath(d, p, v, combine, false).doc, q) == GetValue(d, q)
    decreases |p|
  {
    hide SetPath, GetPath, GetValue, WithChild, Child;
    SetStep(d, p, v, combine, false);
    var r := SetPath(Child(d, p[0]), p[1..], v, combine, false);
    GetStep(d, q);
    GetStep(WithChild(d, p[0], r.doc), q);
    ChildLaws(d, p[0], r.doc, q[0], Null);
    if p[0] == q[0] {
      SetKeepsDiverging(Child(d, p[0]), p[1..], v, combine, q[1..]);
    } else {
      NullReadsNull(q[1..]);
    }
  }

  lemma NullReadsNull(q: Path)
    ensures GetValue(Null, q) == Null
  {
  }

  /** Force matters only when something is in the way. */
  lemma {:induction false} ForceOnlyWhenNeeded(d: Json, p: Path, v: Json, combine: Combine)
    requires SetPath(d, p, v, combine, false).err.None?
    ensures SetPath(d, p, v, combine, true) == SetPath(d, p, v, combine, false)
    decreases |p|
  {
    if p != [] {
      SetStep(d, p, v, combine, false);
      SetStep(d, p, v, combine, true);
      ForceOnlyWhenNeeded(Child(d, p[0]), p[1..], v, combine);
    }
  }

  /** A second set on the same path overrides the first. */
  lemma {:induction false} SetOverridesSet(d: Json, p: Path, v: Json, w: Json, force: bool)
    requires SetPath(d, p, v, Replace, force).err.None?
    ensures SetPath(SetPath(d, p, v, Replace, force).doc, p, w, Replace, force) == SetPath(d, p, w, Replace, force)
    decreases |p|, !d.Null?
  {
    if p != [] {
      hide SetPath, WithChild, Child;
      SetStep(d, p, v, Replace, force);
      SetStep(d, p, w, Replace, force);
      if Fits(d, p[0]) {
        var r := SetPath(Child(d, p[0]), p[1..], v, Replace, force).doc;
        SetOverridesSet(Child(d, p[0]), p[1..], v, w, force);
        ChildLaws(d, p[0], r, p[0], SetPath(Child(d, p[0]), p[1..], w, Replace, force).doc);
        SetStep(WithChild(d, p[0], r), p, w, Replace, force);
      } else {
        ForceStep(d, p, v, Replace);
        ForceStep(d, p, w, Replace);
        SetOverridesSet(Null, p, v, w, force);
      }
    }
  }

  /** Sets and appends on diverging paths commute, also as to whether they succeed. */
  lemma {:induction false} DivergingSetsCommute(d: Json, p: Path, v: Json, cp: Combine, q: Path, w: Json, cq: Combine)
    requires Diverges(p, q)
    requires SetPath(d, p, v, cp, false).err.None?
    requires SetPath(SetPath(d, p, v, cp, false).doc, q, w, cq, false).err.None?
    ensures SetPath(d, q, w, cq, false).err.None?
    ensures SetPath(SetPath(d, q, w, cq, false).doc, p, v, cp, false) ==
      SetPath(SetPath(d, p, v, cp, false).doc, q, w, cq, false)
    decreases |p|
  {
    hide SetPath, WithChild, Child;
    SetStep(d, p, v, cp, false);
    SetStep(d, q, w, cq, false);
    var x := SetPath(Child(d, p[0]), p[1..], v, cp, false).doc;
    SetStep(WithChild(d, p[0], x), q, w, cq, false);
    if p[0] == q[0] {
      var xy := SetPath(x, q[1..], w, cq, false).doc;
      ChildLaws(d, p[0], x, p[0], xy);
      DivergingSetsCommute(Child(d, p[0]), p[1..], v, cp, q[1..], w, cq);
      var y := SetPath(Child(d, p[0]), q[1..], w, cq, false).doc;
      ChildLaws(d, p[0], y, p[0], xy);
      SetStep(WithChild(d, p[0], y), p, v, cp, false);
    } else {
      ChildLaws(d, p[0], x, q[0], Null);
      var y := SetPath(Child(d, q[0]), q[1..], w, cq, false).doc;
      ChildLaws(d, p[0], x, q[0], y);
      OtherStillFits(d, p[0], x, q[0], y);
      ChildLaws(d, q[0], y, p[0], x);
      SetStep(WithChild(d, q[0], y), p, v, cp, false);
    }
  }

  lemma OtherStillFits(d: Json, a: Part, x: Json, b: Part, y: Json)
    requires Fits(d, a) && Fits(d, b) && Fits(WithChild(d, a, x), b)
    ensures Fits(WithChild(d, b, y), a)
  {
  }

  // ---------------------------------------------------------------- what the last element of a path does

  /** A path reads what its rest reads below its first element. */
  lemma ReadStep(d: Json, p: Path)
    requires p != [] && GetPath(d, p).Value? && !GetPath(d, p).v.Null?
    ensures Fits(d, p[0]) && GetPath(Child(d, p[0]), p[1..]) == GetPath(d, p)
  {
  }

  /** Reading on from what a path reads. */
  lemma {:induction false} ReadsOn(d: Json, p: Path, q: Path)
    requires GetPath(d, p).Value? && !GetPath(d, p).v.Null?
    ensures GetPath(d, p + q) == GetPath(GetPath(d, p).v, q)
    decreases |p|
  {
    if p == [] {
      assert p + q == q;
    } else {
      ReadStep(d, p);
      ReadsOn(Child(d, p[0]), p[1..], q);
      assert (p + q)[1..] == p[1..] + q;
      NotNullRead(d, p, q);
    }
  }

  lemma NotNullRead(d: Json, p: Path, q: Path)
    requires p != [] && GetPath(d, p).Value? && !GetPath(d, p).v.Null? && (p + q)[1..] == p[1..] + q
    ensures Fits(d, p[0]) && GetPath(d, p + q) == GetPath(Child(d, p[0]), p[1..] + q)
  {
  }

  /** Keys and indices: what one path element reads. */
  lemma ReadElement(fields: map<string, Json>, k: string, elems: seq<Json>, i: nat)
    ensures GetPath(Obj(fields), [Key(k)]) == Value(if k in fields then fields[k] else Null)
    ensures GetPath(Arr(elems), [Idx(i)]) == Value(if i < |elems| then elems[i] else Null)
  {
  }

  /** Paths that cannot be: reading one in a document, and setting or appending at one, with force or without, is an
      error. */
  lemma BadParts(d: Json, part: Part, rest: Path, v: Json, combine: Combine, force: bool)
    requires part.Other? || (part.Idx? && part.i < 0)
    ensures d.Null? <==> GetPath(d, [part] + rest) == Value(Null)
    ensures !d.Null? ==> GetPath(d, [part] + rest).GetError?
    ensures SetPath(d, [part] + rest, v, combine, force).err.Some?
  {
  }

  /** Setting or appending below what a path reads: that is changed, and is read by the path afterwards. */
  lemma {:induction false} SetBelow(d: Json, p: Path, q: Path, v: Json, combine: Combine)
    requires GetPath(d, p).Value? && !GetPath(d, p).v.Null?
    ensures var r, below := SetPath(d, p + q, v, combine, false), SetPath(GetPath(d, p).v, q, v, combine, false);
      r.err == below.err && GetPath(r.doc, p) == Value(below.doc)
    decreases |p|
  {
    if p == [] {
      assert p + q == q;
    } else {
      ReadStep(d, p);
      SetBelow(Child(d, p[0]), p[1..], q, v, combine);
      assert (p + q)[1..] == p[1..] + q && (p + q)[0] == p[0];
      hide SetPath, GetPath;
      SetStep(d, p + q, v, combine, false);
      var below := SetPath(Child(d, p[0]), p[1..] + q, v, combine, false).doc;
      ChildLaws(d, p[0], below, p[0], Null);
      GetStep(WithChild(d, p[0], below), p);
    }
  }

  /** An append to a path that reads an array adds the value at its end; where the path reads nil it makes an array of
      the value; and anything else it refuses. */
  lemma {:induction false} AppendReads(d: Json, p: Path, v: Json)
    requires GetPath(d, p).Value?
    ensures var was, r := GetPath(d, p).v, SetPath(d, p, v, Append, false);
      match was
      case Arr(xs) => r.err.None? && GetPath(r.doc, p) == Value(Arr(xs + [v]))
      case Null => r.err.None? ==> GetPath(r.doc, p) == Value(Arr([v]))
      case _ => r.err.Some?
  {
    var r := SetPath(d, p, v, Append, false);
    if !GetPath(d, p).v.Null? {
      SetBelow(d, p, [], v, Append);
      assert p + [] == p;
    } else if r.err.None? {
      GetAfterSet(d, p, v, Append, false);
    }
  }

  /** A set below a path that reads a container changes just the one entry; an array grows exactly as far as it must,
      with nil in between. */
  lemma {:induction false} SetEntryReads(d: Json, p: Path, part: Part, v: Json)
    requires GetPath(d, p).Value?
    ensures var was, r := GetPath(d, p).v, SetPath(d, p + [part], v, Replace, false);
      && (was.Obj? && part.Key? ==> r.err.None? && GetPath(r.doc, p) == Value(Obj(was.fields[part.k := v])))
      && (was.Arr? && part.Idx? && 0 <= part.i ==>
            r.err.None? && GetPath(r.doc, p) == Value(Arr(
              if part.i < |was.elems| then was.elems[part.i := v]
              else was.elems + seq(part.i - |was.elems|, _ => Null) + [v])))
  {
    var was := GetPath(d, p).v;
    if !was.Null? {
      SetBelow(d, p, [part], v, Replace);
      if was.Arr? && part.Idx? && |was.elems| <= part.i {
        var n := part.i - |was.elems|;
        assert Grown(was.elems, part.i)[part.i := v] == was.elems + seq(n, _ => Null) + [v];
      }
    }
  }
}
