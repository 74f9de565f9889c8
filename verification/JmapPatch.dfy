/**
  JSON trees and the patches of section 5.3 of RFC 8620.
  */
module JsonTrees {
  import opened Prelude
  import opened JsonPointer

  datatype Json =
    | Null
    | Bool(b: bool)
    | Num(n: real)
    | Str(s: string)
    | Arr(items: seq<Json>)
    | Obj(members: Members)

  type Members = map<string, Json>

  function Get(m: Members, key: string): Option<Json> { if key in m then Some(m[key]) else None }

  function With(m: Members, key: string, v: Option<Json>): (n: Members)
    ensures forall k :: Get(n, k) == if k == key then v else Get(m, k)
  {
    match v
    case None => m - {key}
    case Some(w) => m[key := w]
  }

  function Lookup(v: Option<Json>, path: Path): Option<Json>
    decreases |path|
  {
    if path == [] then v
    else if v.Some? && v.value.Obj? then Lookup(Get(v.value.members, path[0]), path[1..])
    else None
  }

  // ----- Null and absent mean the same -----

  function Norm(v: Json): (n: Json)
    ensures n == Null <==> v == Null
    ensures n.Obj? <==> v.Obj?
  {
    match v
    case Arr(items) => Arr(seq(|items|, i requires 0 <= i < |items| => Norm(items[i])))
    case Obj(m) => Obj(map k | k in m && m[k] != Null :: Norm(m[k]))
    case _ => v
  }

  /** The meaning of a member that may be missing. */
  function NormAt(v: Option<Json>): Option<Json> {
    if v == None || v == Some(Null) then None else Some(Norm(v.value))
  }

  /** No object in the tree has a null member. */
  predicate NullFree(v: Json) {
    match v
    case Arr(items) => forall i :: 0 <= i < |items| ==> NullFree(items[i])
    case Obj(m) => forall k :: k in m ==> m[k] != Null && NullFree(m[k])
    case _ => true
  }

  lemma {:induction false} NormOfNullFree(v: Json)
    requires NullFree(v)
    ensures Norm(v) == v
  {
    match v
    case Arr(items) =>
      forall i | 0 <= i < |items| ensures Norm(items[i]) == items[i] {
        NormOfNullFree(items[i]);
      }
    case Obj(m) =>
      forall k | k in m ensures Norm(m[k]) == m[k] {
        NormOfNullFree(m[k]);
      }
      assert forall k :: k in m ==> m[k] != Null;
      assert Norm(v).members == m;
    case _ =>
  }

  lemma SameMembers(m: Members, n: Members)
    requires forall k :: Get(m, k) == Get(n, k)
    ensures m == n
  {
    forall k ensures k in m <==> k in n {
      assert Get(m, k) == Get(n, k);
    }
    forall k | k in m && k in n ensures m[k] == n[k] {
      assert Get(m, k) == Get(n, k);
    }
  }

  lemma SameNorm(m: Members, n: Members)
    requires forall k :: NormAt(Get(m, k)) == NormAt(Get(n, k))
    ensures Norm(Obj(m)) == Norm(Obj(n))
  {
    var a, b := Norm(Obj(m)).members, Norm(Obj(n)).members;
    forall k ensures Get(a, k) == Get(b, k) {
      NormMember(m, k);
      NormMember(n, k);
      assert NormAt(Get(m, k)) == NormAt(Get(n, k));
    }
    SameMembers(a, b);
  }

  lemma NormMember(m: Members, k: string)
    ensures Get(Norm(Obj(m)).members, k) == NormAt(Get(m, k))
  {
  }

  // ----- Applying a patch -----

  datatype Edit = Edit(path: Path, value: Json)

  /** Sets the value at a path; null removes it. `None` where a parent of the path is not an object. */
  function Put(v: Option<Json>, path: Path, w: Json): Option<Option<Json>>
    decreases |path|
  {
    if path == [] then Some(if w == Null then None else Some(w))
    else if v.Some? && v.value.Obj? then
      var m := v.value.members;
      match Put(Get(m, path[0]), path[1..], w)
      case None => None
      case Some(c) => Some(Some(Obj(With(m, path[0], c))))
    else None
  }

  function Apply(v: Option<Json>, edits: seq<Edit>): Option<Option<Json>>
    decreases |edits|
  {
    if edits == [] then Some(v)
    else
      match Put(v, edits[0].path, edits[0].value)
      case None => None
      case Some(next) => Apply(next, edits[1..])
  }

  /** The edits below one member, in order. */
  function Project(edits: seq<Edit>, key: string): seq<Edit> {
    if edits == [] then []
    else if edits[0].path != [] && edits[0].path[0] == key then
      [Edit(edits[0].path[1..], edits[0].value)] + Project(edits[1..], key)
    else Project(edits[1..], key)
  }

  ghost predicate AllBelow(edits: seq<Edit>) { forall e :: e in edits ==> e.path != [] }

  /** What a list of edits does to each member. */
  ghost predicate Memberwise(m: Members, edits: seq<Edit>, n: Members) {
    forall k :: Apply(Get(m, k), Project(edits, k)) == Some(Get(n, k))
  }

  lemma FirstEdit(m: Members, edits: seq<Edit>, c: Option<Json>)
    requires edits != [] && edits[0].path != []
    requires Put(Get(m, edits[0].path[0]), edits[0].path[1..], edits[0].value) == Some(c)
    ensures var next := With(m, edits[0].path[0], c);
            forall k :: Apply(Get(m, k), Project(edits, k)) == Apply(Get(next, k), Project(edits[1..], k))
  {
    var e := edits[0];
    var first := Edit(e.path[1..], e.value);
    var rest := Project(edits[1..], e.path[0]);
    assert ([first] + rest)[1..] == rest;
  }

  /** Applying edits to an object applies to every member the edits below it: members do not disturb each other. */
  lemma {:induction false} ApplyMemberwise(m: Members, edits: seq<Edit>) returns (n: Members)
    requires AllBelow(edits)
    requires forall k :: Apply(Get(m, k), Project(edits, k)).Some?
    ensures Apply(Some(Obj(m)), edits) == Some(Some(Obj(n))) && Memberwise(m, edits, n)
    decreases |edits|
  {
    if edits == [] {
      n := m;
    } else {
      var e := edits[0];
      assert e in edits;
      var k := e.path[0];
      var c := Put(Get(m, k), e.path[1..], e.value);
      assert c.Some? by {
        assert Apply(Get(m, k), Project(edits, k)).Some?;
        assert Project(edits, k)[0] == Edit(e.path[1..], e.value);
      }
      FirstEdit(m, edits, c.value);
      n := ApplyMemberwise(With(m, k, c.value), edits[1..]);
    }
  }

  lemma {:induction false} AppliedMemberwise(m: Members, edits: seq<Edit>) returns (n: Members)
    requires AllBelow(edits) && Apply(Some(Obj(m)), edits).Some?
    ensures Apply(Some(Obj(m)), edits) == Some(Some(Obj(n))) && Memberwise(m, edits, n)
    decreases |edits|
  {
    if edits == [] {
      n := m;
    } else {
      var e := edits[0];
      assert e in edits;
      var c := Put(Get(m, e.path[0]), e.path[1..], e.value);
      FirstEdit(m, edits, c.value);
      n := AppliedMemberwise(With(m, e.path[0], c.value), edits[1..]);
    }
  }
}

/**
  The patch between two objects: bearos-webui/src/lib/jmapPatch.ts.
  */
module JmapPatch {
  import opened Prelude
  import opened JsonPointer
  import opened JsonTrees

  // ----- What the patch holds at a path -----

  predicate SameType(m: Members, n: Members) { Get(m, "@type") == Get(n, "@type") }

  /** Both are objects of one type, so their members are compared one by one. */
  predicate Descends(x: Option<Json>, y: Option<Json>) {
    x.Some? && y.Some? && x.value.Obj? && y.value.Obj? && SameType(x.value.members, y.value.members)
  }

  /** The value that the patch sets at `path` below a member that was `x` and becomes `y`. */
  function Entry(x: Option<Json>, y: Option<Json>, path: Path): Option<Json>
    decreases |path|
  {
    if Descends(x, y) then
      if path == [] then None
      else Entry(Get(x.value.members, path[0]), Get(y.value.members, path[0]), path[1..])
    else if path != [] || x == y then None
    else Some(OrNull(y))
  }

  function OrNull(y: Option<Json>): Json { if y.Some? then y.value else Null }

  lemma {:induction false} UnchangedHasNoEntry(x: Option<Json>, path: Path)
    ensures Entry(x, x, path) == None
    decreases |path|
  {
    if Descends(x, x) && path != [] {
      UnchangedHasNoEntry(Get(x.value.members, path[0]), path[1..]);
    }
  }

  /** Every entry is a real edit: it holds the new value, and the old one was different. */
  lemma {:induction false} EntryIsEdit(x: Option<Json>, y: Option<Json>, path: Path)
    requires Entry(x, y, path).Some?
    ensures Entry(x, y, path) == Some(OrNull(Lookup(y, path))) && Lookup(x, path) != Lookup(y, path)
    decreases |path|
  {
    if Descends(x, y) {
      EntryIsEdit(Get(x.value.members, path[0]), Get(y.value.members, path[0]), path[1..]);
    }
  }

  /** Every parent on the path of an entry is an object in the original: no path enters an array or a missing member. */
  lemma {:induction false} ParentsAreObjects(x: Option<Json>, y: Option<Json>, path: Path, i: nat)
    requires Entry(x, y, path).Some? && i < |path|
    ensures Lookup(x, path[..i]).Some? && Lookup(x, path[..i]).value.Obj?
    decreases |path|
  {
    if i > 0 {
      ParentsAreObjects(Get(x.value.members, path[0]), Get(y.value.members, path[0]), path[1..], i - 1);
      assert path[..i][0] == path[0] && path[..i][1..] == path[1..][..i - 1];
    }
  }

  /** No entry lies below another. */
  lemma {:induction false} EntriesArePrefixFree(x: Option<Json>, y: Option<Json>, path: Path, more: Path)
    requires Entry(x, y, path).Some? && Entry(x, y, path + more).Some?
    ensures more == []
    decreases |path|
  {
    if path == [] {
      assert path + more == more;
    } else {
      assert (path + more)[0] == path[0] && (path + more)[1..] == path[1..] + more;
      EntriesArePrefixFree(Get(x.value.members, path[0]), Get(y.value.members, path[0]), path[1..], more);
    }
  }

  // ----- Applying the entries of one member -----

  ghost predicate Once(edits: seq<Edit>) {
    edits == [] || ((forall e :: e in edits[1..] ==> e.path != edits[0].path) && Once(edits[1..]))
  }

  /** `edits` are the entries between `x` and `y`, in some order. */
  ghost predicate Lists(edits: seq<Edit>, x: Option<Json>, y: Option<Json>) {
    && Once(edits)
    && (forall e :: e in edits ==> Entry(x, y, e.path) == Some(e.value))
    && (forall path :: Entry(x, y, path).Some? ==> Edit(path, Entry(x, y, path).value) in edits)
  }

  lemma {:induction false} InProject(edits: seq<Edit>, key: string, e: Edit)
    ensures e in Project(edits, key) <==> Edit([key] + e.path, e.value) in edits
    decreases |edits|
  {
    if edits != [] {
      var f := edits[0];
      InProject(edits[1..], key, e);
      assert edits == [f] + edits[1..];
      assert ([key] + e.path)[1..] == e.path;
      if f.path != [] && f.path[0] == key {
        assert [key] + f.path[1..] == f.path;
      }
    }
  }

  lemma {:induction false} ProjectOnce(edits: seq<Edit>, key: string)
    requires Once(edits)
    ensures Once(Project(edits, key))
  {
    if edits != [] {
      var f := edits[0];
      ProjectOnce(edits[1..], key);
      if f.path != [] && f.path[0] == key {
        var rest := Project(edits[1..], key);
        forall e | e in rest ensures e.path != f.path[1..] {
          InProject(edits[1..], key, e);
          assert f.path == [key] + f.path[1..];
        }
        assert ([Edit(f.path[1..], f.value)] + rest)[1..] == rest;
      }
    }
  }

  lemma ListsBelow(edits: seq<Edit>, x: Option<Json>, y: Option<Json>, key: string)
    requires Lists(edits, x, y) && Descends(x, y)
    ensures Lists(Project(edits, key), Get(x.value.members, key), Get(y.value.members, key))
  {
    var a, b := Get(x.value.members, key), Get(y.value.members, key);
    ProjectOnce(edits, key);
    forall path ensures Entry(x, y, [key] + path) == Entry(a, b, path) {
      assert ([key] + path)[1..] == path;
    }
    forall e | e in Project(edits, key) ensures Entry(a, b, e.path) == Some(e.value) {
      InProject(edits, key, e);
    }
    forall path | Entry(a, b, path).Some? ensures Edit(path, Entry(a, b, path).value) in Project(edits, key) {
      InProject(edits, key, Edit(path, Entry(a, b, path).value));
    }
  }

  /** The entries between two values, applied to the first in any order, give the second. */
  lemma {:induction false} EntriesRestore(x: Option<Json>, y: Option<Json>, edits: seq<Edit>)
    requires Lists(edits, x, y)
    ensures Apply(x, edits).Some? && NormAt(Apply(x, edits).value) == NormAt(y)
    decreases x.Some?, OrNull(x)
  {
    if Descends(x, y) {
      var m, n := x.value.members, y.value.members;
      forall k ensures var after := Apply(Get(m, k), Project(edits, k));
                       after.Some? && NormAt(after.value) == NormAt(Get(n, k))
      {
        ListsBelow(edits, x, y, k);
        if k in m {
          EntriesRestore(Get(m, k), Get(n, k), Project(edits, k));
        } else {
          LeafRestores(Get(m, k), Get(n, k), Project(edits, k));
        }
      }
      var r := ApplyMemberwise(m, edits);
      SameNorm(r, n);
    } else {
      LeafRestores(x, y, edits);
    }
  }

  lemma FirstTwo(edits: seq<Edit>)
    ensures edits != [] ==> edits[0] in edits
    ensures |edits| > 1 ==> edits[1] in edits[1..] && edits[1] in edits
  {
  }

  lemma LeafRestores(x: Option<Json>, y: Option<Json>, edits: seq<Edit>)
    requires Lists(edits, x, y) && !Descends(x, y)
    ensures Apply(x, edits).Some? && NormAt(Apply(x, edits).value) == NormAt(y)
  {
    if x == y {
      FirstTwo(edits);
    } else {
      var only := Edit([], OrNull(y));
      assert Entry(x, y, []) == Some(OrNull(y));
      assert only in edits;
      FirstTwo(edits);
      assert edits == [only];
    }
  }

  // ----- Where the patch stops -----

  /** Both are objects, and of one type or both without one. */
  predicate OneVariant(a: Option<Json>, b: Option<Json>) {
    && a.Some? && b.Some? && a.value.Obj? && b.value.Obj?
    && Get(a.value.members, "@type") == Get(b.value.members, "@type")
  }

  predicate AllOneVariant(x: Option<Json>, y: Option<Json>, path: Path) {
    forall i :: 0 <= i < |path| ==> OneVariant(Lookup(x, path[..i]), Lookup(y, path[..i]))
  }

  /** `path` leads through objects of one type on both sides, and ends where they are not: what the two hold there
      differs, and `v` is the new value. */
  predicate StopsAt(x: Option<Json>, y: Option<Json>, path: Path, v: Json) {
    && AllOneVariant(x, y, path)
    && !OneVariant(Lookup(x, path), Lookup(y, path))
    && Lookup(x, path) != Lookup(y, path)
    && v == (if Lookup(y, path).Some? then Lookup(y, path).value else Null)
  }

  lemma LaterPrefixes(x: Option<Json>, y: Option<Json>, path: Path)
    requires path != []
    ensures AllOneVariant(x, y, path) <==>
              && OneVariant(x, y)
              && AllOneVariant(Get(x.value.members, path[0]), Get(y.value.members, path[0]), path[1..])
  {
    hide OneVariant;
    assert path[..0] == [];
    var rest := path[1..];
    assert forall i :: 0 <= i < |rest| ==> path[..i + 1][0] == path[0] && path[..i + 1][1..] == rest[..i];
    if AllOneVariant(x, y, path) {
      assert OneVariant(Lookup(x, path[..0]), Lookup(y, path[..0]));
      assert x.value.Obj? && y.value.Obj? by { AreObjects(x, y); }
      forall i | 0 <= i < |rest|
        ensures OneVariant(Lookup(Get(x.value.members, path[0]), rest[..i]), Lookup(Get(y.value.members, path[0]), rest[..i]))
      {
        assert OneVariant(Lookup(x, path[..i + 1]), Lookup(y, path[..i + 1]));
      }
    }
    if OneVariant(x, y) {
      AreObjects(x, y);
      var a, b := Get(x.value.members, path[0]), Get(y.value.members, path[0]);
      if AllOneVariant(a, b, rest) {
        forall i | 0 <= i < |path| ensures OneVariant(Lookup(x, path[..i]), Lookup(y, path[..i])) {
          if i > 0 {
            assert OneVariant(Lookup(a, rest[..i - 1]), Lookup(b, rest[..i - 1]));
            assert path[..i][0] == path[0] && path[..i][1..] == rest[..i - 1];
          }
        }
      }
    }
  }

  lemma AreObjects(x: Option<Json>, y: Option<Json>)
    requires OneVariant(x, y)
    ensures x.Some? && y.Some? && x.value.Obj? && y.value.Obj?
  {
  }

  lemma {:induction false} EntryExactly(x: Option<Json>, y: Option<Json>, path: Path, v: Json)
    ensures Entry(x, y, path) == Some(v) <==> StopsAt(x, y, path, v)
    decreases |path|
  {
    if path != [] {
      LaterPrefixes(x, y, path);
      hide AllOneVariant;
      if OneVariant(x, y) {
        EntryExactly(Get(x.value.members, path[0]), Get(y.value.members, path[0]), path[1..], v);
      }
    }
  }

  // ----- The whole patch -----

  predicate VariantChanged(o: Members, m: Members) {
    "@type" in o && "@type" in m && o["@type"] != m["@type"]
  }

  /** The members the calculation passes over: the id, and what a change of variant drops. */
  predicate Skipped(o: Members, m: Members, key: string) {
    key == "id" || (VariantChanged(o, m) && key in o && key !in m)
  }

  function TopEntry(o: Members, m: Members, path: Path): Option<Json> {
    if path == [] || Skipped(o, m, path[0]) then None else Entry(Get(o, path[0]), Get(m, path[0]), path[1..])
  }

  /** What the patch holds, from the two objects alone: at a non-empty path whose first key is not `id` and is not dropped
      by a change of variant, the new value, if below that key every object on the way has one type on both sides and
      the path ends where that stops and the values differ. */
  lemma TopEntryExactly(o: Members, m: Members, path: Path, v: Json)
    ensures TopEntry(o, m, path) == Some(v) <==>
              && path != [] && path[0] != "id"
              && !(path[0] in o && path[0] !in m && "@type" in o && "@type" in m && o["@type"] != m["@type"])
              && StopsAt(Get(o, path[0]), Get(m, path[0]), path[1..], v)
  {
    hide Entry, StopsAt;
    if path != [] {
      EntryExactly(Get(o, path[0]), Get(m, path[0]), path[1..], v);
    }
  }

  /** The top-level key is written as it is; the members below it are escaped. */
  function Pointer(path: Path): string
    requires path != []
  {
    path[0] + Below(path[1..])
  }

  /** What the calculation leaves in the record: every entry's pointer, and behind each pointer an entry's value. */
  ghost predicate IsPatch(o: Members, m: Members, patch: map<string, Json>) {
    && (forall path :: TopEntry(o, m, path).Some? ==> Pointer(path) in patch)
    && (forall pointer :: pointer in patch ==> ComesFrom(o, m, pointer, patch[pointer]))
  }

  ghost predicate ComesFrom(o: Members, m: Members, pointer: string, value: Json) {
    exists path :: TopEntry(o, m, path) == Some(value) && Pointer(path) == pointer
  }

  datatype Item = Item(pointer: string, value: Json)

  ghost predicate OncePerPointer(items: seq<Item>) {
    items == [] || ((forall e :: e in items[1..] ==> e.pointer != items[0].pointer) && OncePerPointer(items[1..]))
  }

  /** `items` are the entries of the record, in some order. */
  ghost predicate Enumerates(items: seq<Item>, patch: map<string, Json>) {
    && OncePerPointer(items)
    && (forall e :: e in items <==> e.pointer in patch && patch[e.pointer] == e.value)
  }

  /** The edits that a patch stands for; `None` when a key is not a pointer. */
  function Edits(items: seq<Item>): Option<seq<Edit>> {
    if items == [] then Some([])
    else
      match (Parse(items[0].pointer), Edits(items[1..]))
      case (Some(path), Some(rest)) => Some([Edit(path, items[0].value)] + rest)
      case _ => None
  }

  function ApplyPatch(o: Members, items: seq<Item>): Option<Option<Json>> {
    match Edits(items)
    case None => None
    case Some(edits) => Apply(Some(Obj(o)), edits)
  }

  /** The patch can be applied, and gives the modified object. */
  ghost predicate Restores(o: Members, m: Members, items: seq<Item>) {
    var after := ApplyPatch(o, items);
    after.Some? && NormAt(after.value) == NormAt(Some(Obj(m)))
  }

  predicate Changed(o: Members, m: Members, key: string) { Get(o, key) != Get(m, key) }

  /** No changed key has a slash or a tilde. */
  ghost predicate PlainKeys(o: Members, m: Members) {
    forall k :: Changed(o, m, k) ==> IsPlain(k)
  }

  // ----- From pointers to paths -----

  lemma EntryMeansChanged(o: Members, m: Members, path: Path)
    requires TopEntry(o, m, path).Some?
    ensures path != [] && Changed(o, m, path[0]) && !Skipped(o, m, path[0])
  {
    UnchangedHasNoEntry(Get(o, path[0]), path[1..]);
  }

  lemma ParsePointer(path: Path)
    requires path != [] && IsPlain(path[0])
    ensures Parse(Pointer(path)) == Some(path)
  {
    hide Parse, Below;
    ParseKey(path[0]);
    ParseBelow(path[0], path[1..]);
    assert [path[0]] + path[1..] == path;
  }

  /** Among plain keys a pointer is its own path, so distinct entries never collide. */
  lemma PatchAtPointer(o: Members, m: Members, patch: map<string, Json>, pointer: string) returns (path: Path)
    requires IsPatch(o, m, patch) && PlainKeys(o, m) && pointer in patch
    ensures TopEntry(o, m, path) == Some(patch[pointer]) && Pointer(path) == pointer && Parse(pointer) == Some(path)
  {
    hide Parse, Entry, Below, Skipped;
    assert ComesFrom(o, m, pointer, patch[pointer]);
    path :| TopEntry(o, m, path) == Some(patch[pointer]) && Pointer(path) == pointer;
    EntryMeansChanged(o, m, path);
    ParsePointer(path);
  }

  /** Two paths share a pointer exactly when the longer first key spells out the beginning of the other path. */
  lemma PointersCollideExactly(p: Path, q: Path)
    requires p != [] && q != [] && |p[0]| >= |q[0]|
    ensures Pointer(p) == Pointer(q) <==> exists x :: p[0] == q[0] + Below(x) && q[1..] == x + p[1..]
  {
    hide Below;
    SamePointer(p[0], p[1..], q[0], q[1..]);
  }

  lemma SpellsSlash(key: string, x: Path)
    ensures x != [] ==> '/' in key + Below(x)
  {
    hide Escape;
    if x != [] { assert (key + Below(x))[|key|] == '/'; }
  }

  /** A key without a slash spells out no other path. */
  lemma PlainPointersDiffer(p: Path, q: Path)
    requires p != [] && q != [] && IsPlain(p[0]) && IsPlain(q[0]) && Pointer(p) == Pointer(q)
    ensures p == q
    decreases |p[0]| < |q[0]|
  {
    if |p[0]| < |q[0]| {
      PlainPointersDiffer(q, p);
    } else {
      PointersCollideExactly(p, q);
      var x :| p[0] == q[0] + Below(x) && q[1..] == x + p[1..];
      SpellsSlash(q[0], x);
      assert q[0] + Below([]) == q[0] && [] + p[1..] == p[1..];
      assert p == [p[0]] + p[1..] && q == [q[0]] + q[1..];
    }
  }

  /** So among plain keys every entry keeps its own value in the record. */
  lemma PatchAtPath(o: Members, m: Members, patch: map<string, Json>, path: Path)
    requires IsPatch(o, m, patch) && PlainKeys(o, m) && TopEntry(o, m, path).Some?
    ensures Pointer(path) in patch && patch[Pointer(path)] == TopEntry(o, m, path).value
  {
    hide Entry, Below, Skipped, Pointer;
    EntryMeansChanged(o, m, path);
    assert ComesFrom(o, m, Pointer(path), patch[Pointer(path)]);
    var other :| TopEntry(o, m, other) == Some(patch[Pointer(path)]) && Pointer(other) == Pointer(path);
    EntryMeansChanged(o, m, other);
    PlainPointersDiffer(path, other);
  }

  /** The edits list the entries of the whole patch. */
  ghost predicate ListsAll(edits: seq<Edit>, o: Members, m: Members) {
    && Once(edits)
    && (forall e :: e in edits ==> TopEntry(o, m, e.path) == Some(e.value))
    && (forall path :: TopEntry(o, m, path).Some? ==> Edit(path, TopEntry(o, m, path).value) in edits)
  }

  lemma {:induction false} AllParse(items: seq<Item>)
    requires forall e :: e in items ==> Parse(e.pointer).Some?
    ensures Edits(items).Some?
  {
    hide Parse;
    if items != [] {
      assert items[0] in items;
      AllParse(items[1..]);
    }
  }

  ghost predicate IsEditOf(items: seq<Item>, f: Edit) {
    exists e :: e in items && Parse(e.pointer) == Some(f.path) && e.value == f.value
  }

  lemma {:induction false} EditsOf(items: seq<Item>)
    requires Edits(items).Some?
    ensures forall e :: e in items ==> Parse(e.pointer).Some? && Edit(Parse(e.pointer).value, e.value) in Edits(items).value
    ensures forall f :: f in Edits(items).value ==> IsEditOf(items, f)
  {
    hide Parse;
    if items != [] {
      var first, rest := items[0], items[1..];
      EditsOf(rest);
      var edit := Edit(Parse(first.pointer).value, first.value);
      assert items == [first] + rest;
      assert Edits(items).value == [edit] + Edits(rest).value;
      forall f | f in Edits(items).value ensures IsEditOf(items, f) {
        if f == edit {
          assert first in items;
        } else {
          var e :| e in rest && Parse(e.pointer) == Some(f.path) && e.value == f.value;
          assert e in items;
        }
      }
    }
  }

  /** Paths repeat only where pointers that parse alike do. */
  lemma {:induction false} EditsOnce(items: seq<Item>)
    requires OncePerPointer(items) && forall e :: e in items ==> Parse(e.pointer).Some?
    requires forall e, f :: e in items && f in items && Parse(e.pointer) == Parse(f.pointer) ==> e.pointer == f.pointer
    ensures Edits(items).Some? && Once(Edits(items).value)
  {
    hide Parse;
    if items != [] {
      var first, rest := items[0], items[1..];
      assert first in items;
      EditsOnce(rest);
      AllParse(items);
      EditsOf(rest);
      var edit, edits := Edit(Parse(first.pointer).value, first.value), Edits(rest).value;
      forall f | f in edits ensures f.path != edit.path {
        var e :| e in rest && Parse(e.pointer) == Some(f.path) && e.value == f.value;
        assert e in items;
      }
      assert Edits(items).value == [edit] + edits && ([edit] + edits)[1..] == edits;
    }
  }

  lemma ItemsListAll(o: Members, m: Members, patch: map<string, Json>, items: seq<Item>)
    requires IsPatch(o, m, patch) && Enumerates(items, patch) && PlainKeys(o, m)
    ensures Edits(items).Some? && ListsAll(Edits(items).value, o, m)
  {
    hide Parse, Entry, Below, Skipped, Edits, Once, OncePerPointer, PlainKeys, IsPatch, TopEntry;
    forall e | e in items
      ensures Parse(e.pointer).Some? && TopEntry(o, m, Parse(e.pointer).value) == Some(e.value)
           && Parse(e.pointer).value != [] && Pointer(Parse(e.pointer).value) == e.pointer
    {
      var path := PatchAtPointer(o, m, patch, e.pointer);
      EntryMeansChanged(o, m, path);
    }
    EditsOnce(items);
    EditsOf(items);
    forall f | f in Edits(items).value ensures TopEntry(o, m, f.path) == Some(f.value) {
      assert IsEditOf(items, f);
    }
    forall path | TopEntry(o, m, path).Some?
      ensures Edit(path, TopEntry(o, m, path).value) in Edits(items).value
    {
      PatchAtPath(o, m, patch, path);
      EntryMeansChanged(o, m, path);
      var e := Item(Pointer(path), TopEntry(o, m, path).value);
      assert e in items;
      ParsePath(o, m, path);
    }
  }

  lemma ParsePath(o: Members, m: Members, path: Path)
    requires TopEntry(o, m, path).Some? && PlainKeys(o, m)
    ensures path != [] && Parse(Pointer(path)) == Some(path)
  {
    hide Parse, Entry, Below, Skipped;
    EntryMeansChanged(o, m, path);
    ParsePointer(path);
  }

  // ----- What applying the patch gives -----

  lemma ListsTop(edits: seq<Edit>, o: Members, m: Members, key: string)
    requires ListsAll(edits, o, m)
    ensures Skipped(o, m, key) ==> Project(edits, key) == []
    ensures !Skipped(o, m, key) ==> Lists(Project(edits, key), Get(o, key), Get(m, key))
  {
    hide Skipped;
    var a, b := Get(o, key), Get(m, key);
    ProjectOnce(edits, key);
    forall path ensures TopEntry(o, m, [key] + path) == if Skipped(o, m, key) then None else Entry(a, b, path) {
      assert ([key] + path)[1..] == path;
    }
    forall e | e in Project(edits, key) ensures TopEntry(o, m, [key] + e.path) == Some(e.value) {
      InProject(edits, key, e);
    }
    FirstTwo(Project(edits, key));
    if !Skipped(o, m, key) {
      forall path | Entry(a, b, path).Some? ensures Edit(path, Entry(a, b, path).value) in Project(edits, key) {
        InProject(edits, key, Edit(path, Entry(a, b, path).value));
      }
    }
  }

  /** Every member comes out as it is in the modified object, except the skipped ones, which stay as they were. */
  lemma PatchResult(o: Members, m: Members, patch: map<string, Json>, items: seq<Item>) returns (r: Members)
    requires IsPatch(o, m, patch) && Enumerates(items, patch) && PlainKeys(o, m)
    ensures ApplyPatch(o, items) == Some(Some(Obj(r)))
    ensures forall k :: NormAt(Get(r, k)) == NormAt(if Skipped(o, m, k) then Get(o, k) else Get(m, k))
  {
    hide Skipped, Edits, Entry;
    ItemsListAll(o, m, patch, items);
    var edits := Edits(items).value;
    forall k ensures var after := Apply(Get(o, k), Project(edits, k));
                     && after.Some?
                     && NormAt(after.value) == NormAt(if Skipped(o, m, k) then Get(o, k) else Get(m, k))
    {
      ListsTop(edits, o, m, k);
      if !Skipped(o, m, k) {
        EntriesRestore(Get(o, k), Get(m, k), Project(edits, k));
      }
    }
    r := ApplyMemberwise(o, edits);
  }

  lemma EqualNorm(m: Members, n: Members)
    ensures Norm(Obj(m)) == Norm(Obj(n)) <==> forall k :: NormAt(Get(m, k)) == NormAt(Get(n, k))
  {
    hide NormAt;
    if Norm(Obj(m)) == Norm(Obj(n)) {
      forall k ensures NormAt(Get(m, k)) == NormAt(Get(n, k)) {
        NormMember(m, k);
        NormMember(n, k);
      }
    }
    if forall k :: NormAt(Get(m, k)) == NormAt(Get(n, k)) {
      SameNorm(m, n);
    }
  }

  /** With plain keys, the patch gives the modified object in any order exactly when the skipped members did not change
      in meaning. */
  lemma PatchRestoresExactly(o: Members, m: Members, patch: map<string, Json>, items: seq<Item>)
    requires IsPatch(o, m, patch) && Enumerates(items, patch) && PlainKeys(o, m)
    ensures Restores(o, m, items) <==>
            forall k :: Skipped(o, m, k) ==> NormAt(Get(o, k)) == NormAt(Get(m, k))
  {
    hide Skipped, Norm, ApplyPatch, PlainKeys, IsPatch, Enumerates;
    var r := PatchResult(o, m, patch, items);
    EqualNorm(r, m);
  }

  /** Between objects of the same type and id, with plain keys, the patch always gives the modified object. */
  lemma PatchRestores(o: Members, m: Members, patch: map<string, Json>, items: seq<Item>)
    requires IsPatch(o, m, patch) && Enumerates(items, patch) && PlainKeys(o, m)
    requires Get(o, "id") == Get(m, "id") && Get(o, "@type") == Get(m, "@type")
    ensures Restores(o, m, items)
  {
    hide NormAt, Restores, PlainKeys, IsPatch, Enumerates;
    assert !VariantChanged(o, m);
    PatchRestoresExactly(o, m, patch, items);
  }

  // ----- Exactly when the patch gives the modified object -----

  /** A changed key that the patch cannot carry. */
  predicate IsLost(o: Members, m: Members, key: string) {
    Changed(o, m, key) && (Skipped(o, m, key) || !IsPlain(key))
  }

  lemma ParseNonEmpty(pointer: string)
    ensures Parse(pointer).Some? ==> Parse(pointer).value != []
  {
  }

  /** No edit starts at the longest lost key: what a key that is not plain edits, starts at a shorter one. */
  lemma NoEditAtLongest(o: Members, m: Members, patch: map<string, Json>, e: Item, key: string)
    requires IsPatch(o, m, patch) && e.pointer in patch && Parse(e.pointer).Some?
    requires IsLost(o, m, key) && forall k :: IsLost(o, m, k) ==> |k| <= |key|
    ensures Parse(e.pointer).value != [] && Parse(e.pointer).value[0] != key
  {
    hide Parse, Entry, Below, Skipped, IsPlain;
    assert ComesFrom(o, m, e.pointer, patch[e.pointer]);
    var path :| TopEntry(o, m, path) == Some(patch[e.pointer]) && Pointer(path) == e.pointer;
    EntryMeansChanged(o, m, path);
    ParseKey(path[0]);
    ParseBelow(path[0], path[1..]);
    ParseNonEmpty(path[0]);
    var head := Parse(path[0]).value;
    assert (head + path[1..])[0] == head[0];
  }

  lemma NoEdits(edits: seq<Edit>, key: string)
    requires forall e :: e in edits ==> e.path != [] && e.path[0] != key
    ensures Project(edits, key) == []
  {
    if edits != [] {
      assert edits[0] in edits;
      NoEdits(edits[1..], key);
    }
  }

  /** The longest lost key keeps its old value. */
  lemma LongestIsLost(o: Members, m: Members, patch: map<string, Json>, items: seq<Item>, key: string) returns (r: Members)
    requires IsPatch(o, m, patch) && Enumerates(items, patch) && ApplyPatch(o, items).Some?
    requires IsLost(o, m, key) && forall k :: IsLost(o, m, k) ==> |k| <= |key|
    ensures ApplyPatch(o, items) == Some(Some(Obj(r))) && Get(r, key) == Get(o, key)
  {
    hide Parse, IsPatch, IsLost;
    EditsOf(items);
    var edits := Edits(items).value;
    forall f | f in edits ensures f.path != [] && f.path[0] != key {
      assert IsEditOf(items, f);
      var e :| e in items && Parse(e.pointer) == Some(f.path) && e.value == f.value;
      NoEditAtLongest(o, m, patch, e, key);
    }
    NoEdits(edits, key);
    r := AppliedMemberwise(o, edits);
    assert Apply(Get(o, key), Project(edits, key)) == Some(Get(r, key));
  }

  lemma {:induction false} Longest(keys: set<string>) returns (key: string)
    requires keys != {}
    ensures key in keys && forall k :: k in keys ==> |k| <= |key|
  {
    key :| key in keys;
    if keys != {key} {
      var other := Longest(keys - {key});
      if |key| < |other| { key := other; }
    }
  }

  lemma NullFreeMember(m: Members, k: string)
    requires NullFree(Obj(m))
    ensures NormAt(Get(m, k)) == Get(m, k)
  {
    if k in m { NormOfNullFree(m[k]); }
  }

  /** Between objects without null members: the patch gives the modified object if and only if no changed key is the id,
      is dropped by a change of variant, or has a slash or a tilde. */
  lemma PatchRestoresIffNothingIsLost(o: Members, m: Members, patch: map<string, Json>, items: seq<Item>)
    requires IsPatch(o, m, patch) && Enumerates(items, patch)
    requires NullFree(Obj(o)) && NullFree(Obj(m))
    ensures Restores(o, m, items) <==> forall k :: !IsLost(o, m, k)
  {
    hide Skipped, IsPlain, Norm, ApplyPatch, IsPatch, Enumerates, NullFree, NormAt;
    if forall k :: !IsLost(o, m, k) {
      assert PlainKeys(o, m) by {
        forall k | Changed(o, m, k) ensures IsPlain(k) { assert !IsLost(o, m, k); }
      }
      forall k | Skipped(o, m, k) ensures NormAt(Get(o, k)) == NormAt(Get(m, k)) { assert !IsLost(o, m, k); }
      PatchRestoresExactly(o, m, patch, items);
    } else {
      var lost := set k | k in o.Keys + m.Keys && IsLost(o, m, k);
      forall k | IsLost(o, m, k) ensures k in lost { }
      var key := Longest(lost);
      if ApplyPatch(o, items).Some? {
        var r := LongestIsLost(o, m, patch, items, key);
        NormMember(r, key);
        NormMember(m, key);
        NullFreeMember(m, key);
        NullFreeMember(o, key);
        assert NormAt(Get(r, key)) != NormAt(Get(m, key));
        DifferentNorm(r, m);
      }
    }
  }

  lemma DifferentNorm(r: Members, m: Members)
    ensures NormAt(Some(Obj(r))) == NormAt(Some(Obj(m))) ==> Norm(Obj(r)) == Norm(Obj(m))
  {
  }

  // ----- The patch is legal and says nothing needless -----

  /** Every key is a pointer whose parents are all objects of the original. */
  lemma PatchIsLegal(o: Members, m: Members, patch: map<string, Json>, pointer: string, i: nat)
    requires IsPatch(o, m, patch) && PlainKeys(o, m) && pointer in patch
    ensures Parse(pointer).Some? && Parse(pointer).value != []
    ensures var path := Parse(pointer).value;
            i < |path| ==> var parent := Lookup(Some(Obj(o)), path[..i]); parent.Some? && parent.value.Obj?
  {
    hide Parse, Below, Skipped;
    var path := PatchAtPointer(o, m, patch, pointer);
    EntryMeansChanged(o, m, path);
    if 0 < i < |path| {
      ParentsAreObjects(Get(o, path[0]), Get(m, path[0]), path[1..], i - 1);
      assert path[..i][0] == path[0] && path[..i][1..] == path[1..][..i - 1];
    }
  }

  /** No key is a prefix of another. */
  lemma PatchIsPrefixFree(o: Members, m: Members, patch: map<string, Json>, p: string, q: string)
    requires IsPatch(o, m, patch) && PlainKeys(o, m) && p in patch && q in patch
    ensures Parse(p).Some? && Parse(q).Some?
    ensures Parse(p).value <= Parse(q).value ==> p == q
  {
    hide Parse, Below, Skipped;
    var a := PatchAtPointer(o, m, patch, p);
    var b := PatchAtPointer(o, m, patch, q);
    EntryMeansChanged(o, m, a);
    if a <= b {
      var more := b[|a|..];
      assert b[1..] == a[1..] + more && b == a + more;
      EntriesArePrefixFree(Get(o, a[0]), Get(m, a[0]), a[1..], more);
      assert b == a;
    }
  }

  /** Every entry holds the new value of its path, and the old value was another. */
  lemma PatchHoldsEdits(o: Members, m: Members, patch: map<string, Json>, pointer: string)
    requires IsPatch(o, m, patch) && PlainKeys(o, m) && pointer in patch
    ensures Parse(pointer).Some?
    ensures var path := Parse(pointer).value;
            var before, after := Lookup(Some(Obj(o)), path), Lookup(Some(Obj(m)), path);
            before != after && patch[pointer] == OrNull(after)
  {
    hide Parse, Below, Skipped;
    var path := PatchAtPointer(o, m, patch, pointer);
    EntryMeansChanged(o, m, path);
    EntryIsEdit(Get(o, path[0]), Get(m, path[0]), path[1..]);
  }

  lemma {:induction false} ChangedHasEntry(x: Option<Json>, y: Option<Json>) returns (path: Path)
    requires x != y
    ensures Entry(x, y, path).Some?
    decreases x.Some?, OrNull(x)
  {
    path := [];
    if Descends(x, y) {
      var m, n := x.value.members, y.value.members;
      if forall k :: Get(m, k) == Get(n, k) { SameMembers(m, n); }
      var k :| Get(m, k) != Get(n, k);
      if k in m {
        var rest := ChangedHasEntry(Get(m, k), Get(n, k));
        path := [k] + rest;
        assert path[1..] == rest;
      } else {
        path := [k];
        assert path[1..] == [];
      }
    }
  }

  /** The patch is empty exactly when only skipped members changed, whatever the keys. */
  lemma EmptyPatch(o: Members, m: Members, patch: map<string, Json>)
    requires IsPatch(o, m, patch)
    ensures patch == map[] <==> forall k :: Changed(o, m, k) ==> Skipped(o, m, k)
  {
    hide Skipped, Entry, Below;
    if k :| Changed(o, m, k) && !Skipped(o, m, k) {
      var path := ChangedHasEntry(Get(o, k), Get(m, k));
      assert ([k] + path)[1..] == path;
      assert Pointer([k] + path) in patch;
    } else {
      forall pointer ensures pointer !in patch {
        if pointer in patch {
          assert ComesFrom(o, m, pointer, patch[pointer]);
          var path :| TopEntry(o, m, path) == Some(patch[pointer]) && Pointer(path) == pointer;
          EntryMeansChanged(o, m, path);
        }
      }
    }
  }

  /** Keys that are not plain do collide: the member `a/b` and the member `b` of `a` share one pointer. */
  lemma KeysCollide()
    ensures var o := map["a" := Obj(map["b" := Bool(false)]), "a/b" := Bool(false)];
            var m := map["a" := Obj(map["b" := Bool(true)]), "a/b" := Null];
            && TopEntry(o, m, ["a", "b"]) == Some(Bool(true))
            && TopEntry(o, m, ["a/b"]) == Some(Null)
            && Pointer(["a", "b"]) == Pointer(["a/b"])
  {
    var o := map["a" := Obj(map["b" := Bool(false)]), "a/b" := Bool(false)];
    assert "a" in o && "@type" !in o;
    assert ["a", "b"][1..] == ["b"] && ["b"][1..] == [] && ["a/b"][1..] == [];
    assert Escape("b") == "b" by { EscapeFirst("b"); }
    assert "a/b" == "a" + Below(["b"]) && ["b"] == ["b"] + [];
    PointersCollideExactly(["a/b"], ["a", "b"]);
  }

  // ----- The calculation -----

  ghost predicate Written(prefix: string, x: Option<Json>, y: Option<Json>, pointer: string, v: Json) {
    exists path :: Entry(x, y, path) == Some(v) && prefix + Below(path) == pointer
  }

  /** `after` is `before` with the entries between `x` and `y` written below `prefix`. */
  ghost predicate Extends(
    before: map<string, Json>, after: map<string, Json>, prefix: string, x: Option<Json>, y: Option<Json>)
  {
    && (forall p :: p in before ==> p in after)
    && (forall path :: Entry(x, y, path).Some? ==> prefix + Below(path) in after)
    && (forall p :: p in after ==> (p in before && before[p] == after[p]) || Written(prefix, x, y, p, after[p]))
  }

  /** The same for some of the members of two objects. */
  ghost predicate ExtendsFor(
    before: map<string, Json>, after: map<string, Json>, prefix: string, m: Members, n: Members, keys: set<string>)
  {
    && (forall p :: p in before ==> p in after)
    && (forall path :: path != [] && path[0] in keys && Entry(Get(m, path[0]), Get(n, path[0]), path[1..]).Some? ==>
          prefix + Below(path) in after)
    && (forall p :: p in after ==> (p in before && before[p] == after[p]) || WrittenFor(prefix, m, n, p, after[p]))
  }

  ghost predicate WrittenFor(prefix: string, m: Members, n: Members, pointer: string, v: Json) {
    exists path ::
      path != [] && Entry(Get(m, path[0]), Get(n, path[0]), path[1..]) == Some(v) && prefix + Below(path) == pointer
  }

  lemma LeafExtends(before: map<string, Json>, prefix: string, x: Option<Json>, y: Option<Json>)
    requires !Descends(x, y)
    ensures Extends(before, if x == y then before else before[prefix := OrNull(y)], prefix, x, y)
  {
    assert prefix + Below([]) == prefix;
    if x != y {
      assert Entry(x, y, []) == Some(OrNull(y));
    }
  }

  function MemberPrefix(prefix: string, key: string): string { prefix + "/" + Escape(key) }

  lemma BelowMember(prefix: string, path: Path)
    requires path != []
    ensures prefix + Below(path) == MemberPrefix(prefix, path[0]) + Below(path[1..])
  {
    hide Escape;
    Assoc("/", Escape(path[0]), Below(path[1..]));
    Assoc(prefix, "/" + Escape(path[0]), Below(path[1..]));
    Assoc(prefix, "/", Escape(path[0]));
  }

  lemma MemberExtends(
    before: map<string, Json>, mid: map<string, Json>, after: map<string, Json>,
    prefix: string, m: Members, n: Members, keys: set<string>, key: string)
    requires ExtendsFor(before, mid, prefix, m, n, keys)
    requires Extends(mid, after, MemberPrefix(prefix, key), Get(m, key), Get(n, key))
    ensures ExtendsFor(before, after, prefix, m, n, keys + {key})
  {
    hide Below, Entry, MemberPrefix;
    forall path | path != [] && path[0] in keys + {key} && Entry(Get(m, path[0]), Get(n, path[0]), path[1..]).Some?
      ensures prefix + Below(path) in after
    {
      if path[0] == key { BelowMember(prefix, path); }
    }
    forall p | p in after ensures (p in before && before[p] == after[p]) || WrittenFor(prefix, m, n, p, after[p]) {
      if !(p in mid && mid[p] == after[p]) {
        assert Written(MemberPrefix(prefix, key), Get(m, key), Get(n, key), p, after[p]);
        var rest :| Entry(Get(m, key), Get(n, key), rest) == Some(after[p]) && MemberPrefix(prefix, key) + Below(rest) == p;
        var path := [key] + rest;
        assert path[1..] == rest;
        BelowMember(prefix, path);
      }
    }
  }

  lemma AllMembersExtend(before: map<string, Json>, after: map<string, Json>, prefix: string, m: Members, n: Members)
    requires SameType(m, n) && ExtendsFor(before, after, prefix, m, n, m.Keys + n.Keys)
    ensures Extends(before, after, prefix, Some(Obj(m)), Some(Obj(n)))
  {
    hide Below;
    var x, y := Some(Obj(m)), Some(Obj(n));
    forall path | Entry(x, y, path).Some? ensures prefix + Below(path) in after {
      UnchangedHasNoEntry(None, path[1..]);
      assert path[0] in m || path[0] in n;
    }
    forall p | p in after ensures (p in before && before[p] == after[p]) || Written(prefix, x, y, p, after[p]) {
      if !(p in before && before[p] == after[p]) {
        assert WrittenFor(prefix, m, n, p, after[p]);
        var path :| path != [] && Entry(Get(m, path[0]), Get(n, path[0]), path[1..]) == Some(after[p])
                    && prefix + Below(path) == p;
        assert Entry(x, y, path) == Some(after[p]);
      }
    }
  }

  /** The record that the calculation writes into. */
  class PatchRecord {
    var entries: map<string, Json>

    constructor ()
      ensures entries == map[]
    {
      entries := map[];
    }

    /** `diffValues`. The members are taken in any order. */
    method DiffValues(prefix: string, a: Json, b: Json)
      modifies this
      ensures Extends(old(entries), entries, prefix, Some(a), Some(b))
      decreases a
    {
      hide Extends, ExtendsFor, Entry, MemberPrefix;
      if a.Obj? && b.Obj? && SameType(a.members, b.members) {
        var m, n := a.members, b.members;
        var todo := m.Keys + n.Keys;
        ghost var seen: set<string> := {};
        NothingExtends(entries, prefix, m, n);
        while todo != {}
          invariant todo + seen == m.Keys + n.Keys
          invariant ExtendsFor(old(entries), entries, prefix, m, n, seen)
          decreases |todo|
        {
          var key :| key in todo;
          ghost var mid := entries;
          var path := MemberPrefix(prefix, key);
          if key !in m {
            entries := entries[path := n[key]];
            LeafExtends(mid, path, Get(m, key), Get(n, key));
          } else if key !in n {
            entries := entries[path := Null];
            LeafExtends(mid, path, Get(m, key), Get(n, key));
          } else {
            DiffValues(path, m[key], n[key]);
          }
          MemberExtends(old(entries), mid, entries, prefix, m, n, seen, key);
          todo := todo - {key};
          seen := seen + {key};
        }
        assert seen == m.Keys + n.Keys;
        AllMembersExtend(old(entries), entries, prefix, m, n);
      } else {
        LeafExtends(entries, prefix, Some(a), Some(b));
        if a != b {
          entries := entries[prefix := b];
        }
      }
    }
  }

  lemma NothingExtends(before: map<string, Json>, prefix: string, m: Members, n: Members)
    ensures ExtendsFor(before, before, prefix, m, n, {})
  {
  }

  /** What the record holds when some of the keys are done. */
  ghost predicate IsPatchFor(o: Members, m: Members, patch: map<string, Json>, keys: set<string>) {
    && (forall path :: TopEntry(o, m, path).Some? && path[0] in keys ==> Pointer(path) in patch)
    && (forall pointer :: pointer in patch ==> ComesFrom(o, m, pointer, patch[pointer]))
  }

  lemma KeyExtends(o: Members, m: Members, mid: map<string, Json>, after: map<string, Json>, keys: set<string>, key: string)
    requires IsPatchFor(o, m, mid, keys)
    requires if Skipped(o, m, key) then after == mid else Extends(mid, after, key, Get(o, key), Get(m, key))
    ensures IsPatchFor(o, m, after, keys + {key})
  {
    hide Below, Entry, Skipped;
    forall pointer | pointer in after ensures ComesFrom(o, m, pointer, after[pointer]) {
      if !(pointer in mid && mid[pointer] == after[pointer]) {
        assert Written(key, Get(o, key), Get(m, key), pointer, after[pointer]);
        var rest :| Entry(Get(o, key), Get(m, key), rest) == Some(after[pointer]) && key + Below(rest) == pointer;
        var path := [key] + rest;
        assert path[1..] == rest;
        assert TopEntry(o, m, path) == Some(after[pointer]) && Pointer(path) == pointer;
      } else {
        assert ComesFrom(o, m, pointer, mid[pointer]);
      }
    }
  }

  lemma NoKeysDone(o: Members, m: Members)
    ensures IsPatchFor(o, m, map[], {})
  {
  }

  lemma AllKeysDone(o: Members, m: Members, patch: map<string, Json>)
    requires IsPatchFor(o, m, patch, o.Keys + m.Keys)
    ensures IsPatch(o, m, patch)
  {
    hide Entry, Below, Skipped;
    forall path | TopEntry(o, m, path).Some? ensures path[0] in o.Keys + m.Keys {
      EntryMeansChanged(o, m, path);
    }
  }

  /** `calculateJmapPatch`. The keys are taken in any order. */
  method CalculateJmapPatch(o: Members, m: Members) returns (patch: map<string, Json>)
    ensures IsPatch(o, m, patch)
  {
    hide Extends, IsPatchFor, IsPatch;
    NoKeysDone(o, m);
    var record := new PatchRecord();
    var todo := o.Keys + m.Keys;
    var variantChanged := VariantChanged(o, m);
    ghost var seen: set<string> := {};
    while todo != {}
      invariant todo + seen == o.Keys + m.Keys
      invariant IsPatchFor(o, m, record.entries, seen)
      decreases |todo|
    {
      var key :| key in todo;
      ghost var mid := record.entries;
      if key == "id" {
      } else if key !in o {
        record.entries := record.entries[key := m[key]];
        LeafExtends(mid, key, Get(o, key), Get(m, key));
      } else if key !in m {
        if !variantChanged {
          record.entries := record.entries[key := Null];
          LeafExtends(mid, key, Get(o, key), Get(m, key));
        }
      } else {
        record.DiffValues(key, o[key], m[key]);
      }
      KeyExtends(o, m, mid, record.entries, seen, key);
      todo := todo - {key};
      seen := seen + {key};
    }
    patch := record.entries;
    assert seen == o.Keys + m.Keys;
    AllKeysDone(o, m, patch);
  }
}
