/**
 Documents and their difference. Loaded documents are canonical: every mapping has string
 keys and no value carries a tag, so a document is a tree of maps, lists and scalars.
 */
module ConfigDiff {
  import opened Prelude

  datatype Value =
    | Null
    | Bool(flag: bool)
    | Int(number: int)
    | Float(amount: real)
    | Str(text: string)
    | List(items: seq<Value>)
    | Mapping(fields: map<string, Value>)

  type Document = map<string, Value>

  type Path = seq<string>

  datatype DiffEntry = DiffEntry(path: Path, desired: Option<Value>)

  predicate IsMapping(v: Option<Value>) {
    v.Some? && v.value.Mapping?
  }

  function Keys(v: Option<Value>): set<string> {
    if IsMapping(v) then v.value.fields.Keys else {}
  }

  function Child(v: Option<Value>, key: string): (child: Option<Value>)
    ensures child.Some? ==> v.Some? && child.value < v.value
  {
    if IsMapping(v) && key in v.value.fields then Some(v.value.fields[key]) else None
  }

  function ValueAt(v: Option<Value>, path: Path): Option<Value>
    decreases path
  {
    if path == [] then v else ValueAt(Child(v, path[0]), path[1..])
  }

  // ---------- What a change is ----------

  /** Whether two different values are compared key by key. */
  predicate Descends(c: Option<Value>, d: Option<Value>) {
    && (IsMapping(c) || IsMapping(d))
    && (c.None? || (IsMapping(c) && (d.None? || IsMapping(d))))
    && Keys(c) + Keys(d) != {}
  }

  /** The places where the difference of `c` and `d` is recorded. */
  ghost predicate IsChange(c: Option<Value>, d: Option<Value>, path: Path)
    decreases path
  {
    if c == d then false
    else if Descends(c, d) then path != [] && IsChange(Child(c, path[0]), Child(d, path[0]), path[1..])
    else path == []
  }

  lemma SomeChild(c: Option<Value>, d: Option<Value>) returns (key: string)
    requires c != d && Descends(c, d)
    ensures key in Keys(c) + Keys(d) && Child(c, key) != Child(d, key)
  {
    if c.None? {
      key :| key in Keys(d);
    } else if d.None? {
      key :| key in Keys(c);
    } else {
      if forall k :: Child(c, k) == Child(d, k) {
        SameChildren(c, d);
        assert false;
      }
      key :| Child(c, key) != Child(d, key);
    }
  }

  lemma SameChildren(c: Option<Value>, d: Option<Value>)
    requires IsMapping(c) && IsMapping(d) && forall k :: Child(c, k) == Child(d, k)
    ensures c == d
  {
    var a, b := c.value.fields, d.value.fields;
    forall k ensures k in a <==> k in b
             ensures k in a ==> a[k] == b[k]
    {
      assert Child(c, k) == Child(d, k);
    }
    assert a == b;
  }

  /** Different values have a change. */
  lemma {:induction false} ChangeExists(c: Option<Value>, d: Option<Value>) returns (path: Path)
    requires c != d
    ensures IsChange(c, d, path)
    decreases c.Some?, if c.Some? then c.value else Null, d.Some?, if d.Some? then d.value else Null
  {
    if Descends(c, d) {
      var key := SomeChild(c, d);
      var rest := ChangeExists(Child(c, key), Child(d, key));
      path := [key] + rest;
    } else {
      path := [];
    }
  }

  /** The difference is empty exactly when the two are equal. */
  lemma NoChangeIffEqual(c: Option<Value>, d: Option<Value>)
    ensures c == d ==> forall path :: !IsChange(c, d, path)
    ensures c != d ==> exists path :: IsChange(c, d, path)
  {
    if c != d {
      var path := ChangeExists(c, d);
    }
  }

  /** No change lies below another one. */
  lemma {:induction false} PrefixFree(c: Option<Value>, d: Option<Value>, p: Path, q: Path)
    requires IsChange(c, d, p) && IsChange(c, d, q) && p <= q
    ensures p == q
    decreases p
  {
    if Descends(c, d) {
      assert p[0] == q[0] && p[1..] <= q[1..];
      PrefixFree(Child(c, p[0]), Child(d, p[0]), p[1..], q[1..]);
      assert p == [p[0]] + p[1..] && q == [q[0]] + q[1..];
    }
  }

  /** Away from the changes the two agree. */
  lemma {:induction false} EqualBelow(c: Option<Value>, d: Option<Value>, path: Path)
    requires forall p | path <= p || p <= path :: !IsChange(c, d, p)
    ensures ValueAt(c, path) == ValueAt(d, path)
    decreases path
  {
    if path == [] {
      forall p ensures !IsChange(c, d, p) {
        assert path <= p;
      }
      assert !exists p :: IsChange(c, d, p);
      NoChangeIffEqual(c, d);
    } else {
      assert !IsChange(c, d, []) by {
        assert [] <= path;
      }
      if c != d {
        var key, rest := path[0], path[1..];
        forall p | rest <= p || p <= rest ensures !IsChange(Child(c, key), Child(d, key), p) {
          var q := [key] + p;
          assert path == [key] + rest && q[0] == key && q[1..] == p && (path <= q || q <= path);
          assert !IsChange(c, d, q);
        }
        EqualBelow(Child(c, key), Child(d, key), rest);
      }
    }
  }

  // ---------- Computing the difference ----------

  /** `e` records a change of `c` to `d`, which sit at `path` in their documents. */
  ghost predicate IsReported(e: DiffEntry, c: Option<Value>, d: Option<Value>, path: Path) {
    path <= e.path && IsChange(c, d, e.path[|path|..]) && e.desired == ValueAt(d, e.path[|path|..])
  }

  ghost predicate Unique(changes: seq<DiffEntry>) {
    forall i, j | 0 <= i < |changes| && 0 <= j < |changes| && changes[i] == changes[j] :: i == j
  }

  /** Every change once, with the desired value at its path, and nothing else. */
  ghost predicate Reports(changes: seq<DiffEntry>, c: Option<Value>, d: Option<Value>, path: Path) {
    Unique(changes) && forall e :: e in changes <==> IsReported(e, c, d, path)
  }

  /** The changes below the keys in `done`. */
  ghost predicate ReportsBelow(changes: seq<DiffEntry>, c: Option<Value>, d: Option<Value>, path: Path,
                               done: set<string>) {
    && Unique(changes)
    && forall e :: e in changes <==> IsReported(e, c, d, path) && |e.path| > |path| && e.path[|path|] in done
  }

  lemma ReportedBelow(e: DiffEntry, c: Option<Value>, d: Option<Value>, path: Path, key: string)
    requires c != d && Descends(c, d)
    ensures IsReported(e, Child(c, key), Child(d, key), path + [key])
       <==> IsReported(e, c, d, path) && |e.path| > |path| && e.path[|path|] == key
  {
    if path <= e.path && |e.path| > |path| {
      var rest := e.path[|path|..];
      assert rest[0] == e.path[|path|] && rest[1..] == e.path[|path| + 1..];
      if rest[0] == key {
        assert path + [key] <= e.path;
      }
    }
  }

  lemma UniqueConcat(a: seq<DiffEntry>, b: seq<DiffEntry>)
    requires Unique(a) && Unique(b) && forall e | e in a :: e !in b
    ensures Unique(a + b)
  {
    forall i, j | 0 <= i < |a| && 0 <= j < |b| ensures a[i] != b[j] {
      assert a[i] in a && b[j] in b;
    }
  }

  lemma AddKey(changes: seq<DiffEntry>, c: Option<Value>, d: Option<Value>, path: Path, done: set<string>, key: string,
               part: seq<DiffEntry>)
    requires c != d && Descends(c, d) && key !in done
    requires ReportsBelow(changes, c, d, path, done) && Reports(part, Child(c, key), Child(d, key), path + [key])
    ensures ReportsBelow(changes + part, c, d, path, done + {key})
  {
    hide IsReported;
    forall e: DiffEntry
      ensures e in part <==> IsReported(e, c, d, path) && |e.path| > |path| && e.path[|path|] == key
    {
      ReportedBelow(e, c, d, path, key);
    }
    UniqueConcat(changes, part);
  }

  lemma AllKeys(changes: seq<DiffEntry>, c: Option<Value>, d: Option<Value>, path: Path)
    requires c != d && Descends(c, d) && ReportsBelow(changes, c, d, path, Keys(c) + Keys(d))
    ensures Reports(changes, c, d, path)
  {
    forall e | IsReported(e, c, d, path) ensures e in changes {
      var rest := e.path[|path|..];
      assert rest[0] == e.path[|path|];
      assert IsChange(Child(c, rest[0]), Child(d, rest[0]), rest[1..]);
      assert Child(c, rest[0]) != Child(d, rest[0]);
    }
  }

  // ---------- The order of the entries ----------

  /** Keys are sorted character by character. */
  predicate KeyBefore(a: string, b: string) {
    if a == [] || b == [] then a == [] && b != []
    else a[0] < b[0] || (a[0] == b[0] && KeyBefore(a[1..], b[1..]))
  }

  lemma {:induction false} KeysCompare(a: string, b: string)
    ensures KeyBefore(a, b) || a == b || KeyBefore(b, a)
    ensures !(KeyBefore(a, b) && KeyBefore(b, a)) && !KeyBefore(a, a)
  {
    if a != [] && b != [] {
      KeysCompare(a[1..], b[1..]);
      KeysCompare(a[1..], a[1..]);
      assert a == [a[0]] + a[1..] && b == [b[0]] + b[1..];
    } else if a != [] {
      KeysCompare(a[1..], a[1..]);
    }
  }

  lemma {:induction false} KeysFollow(a: string, b: string, c: string)
    requires KeyBefore(a, b) && KeyBefore(b, c)
    ensures KeyBefore(a, c)
  {
    if a != [] && a[0] == b[0] == c[0] {
      KeysFollow(a[1..], b[1..], c[1..]);
    }
  }

  predicate PathBefore(p: Path, q: Path) {
    if p == [] || q == [] then p == [] && q != []
    else KeyBefore(p[0], q[0]) || (p[0] == q[0] && PathBefore(p[1..], q[1..]))
  }

  lemma {:induction false} PathsApart(p: Path, q: Path)
    requires PathBefore(p, q)
    ensures !PathBefore(q, p) && p != q
  {
    if p != [] {
      KeysCompare(p[0], q[0]);
      KeysCompare(p[0], p[0]);
      if p[0] == q[0] {
        PathsApart(p[1..], q[1..]);
      }
    }
  }

  /** Below one path, the next key decides. */
  lemma {:induction false} NextKeyDecides(path: Path, p: Path, q: Path)
    requires path <= p && path <= q && |path| < |p| && |path| < |q| && KeyBefore(p[|path|], q[|path|])
    ensures PathBefore(p, q)
  {
    if path != [] {
      NextKeyDecides(path[1..], p[1..], q[1..]);
    }
  }

  ghost predicate InOrder(changes: seq<DiffEntry>) {
    forall i, j | 0 <= i < j < |changes| :: PathBefore(changes[i].path, changes[j].path)
  }

  /** Entries below a later key follow those below earlier keys. */
  lemma OrderedConcat(changes: seq<DiffEntry>, part: seq<DiffEntry>, path: Path, key: string)
    requires InOrder(changes) && InOrder(part)
    requires forall e | e in changes :: path <= e.path && |path| < |e.path| && KeyBefore(e.path[|path|], key)
    requires forall e | e in part :: path <= e.path && |path| < |e.path| && e.path[|path|] == key
    ensures InOrder(changes + part)
  {
    hide KeyBefore, PathBefore;
    forall i, j | 0 <= i < |changes| && 0 <= j < |part| ensures PathBefore(changes[i].path, part[j].path) {
      assert changes[i] in changes && part[j] in part;
      NextKeyDecides(path, changes[i].path, part[j].path);
    }
  }

  lemma PartInOrder(changes: seq<DiffEntry>, c: Option<Value>, d: Option<Value>, path: Path, done: set<string>,
                    key: string, part: seq<DiffEntry>)
    requires InOrder(changes) && InOrder(part) && forall k | k in done :: KeyBefore(k, key)
    requires ReportsBelow(changes, c, d, path, done) && Reports(part, Child(c, key), Child(d, key), path + [key])
    ensures InOrder(changes + part)
  {
    hide KeyBefore, InOrder, IsChange, ValueAt;
    forall e | e in part ensures path <= e.path && |path| < |e.path| && e.path[|path|] == key {
      assert path + [key] <= e.path;
      assert e.path[..|path| + 1] == path + [key];
    }
    OrderedConcat(changes, part, path, key);
  }

  /** The first of some keys. */
  method FirstKey(keys: set<string>) returns (key: string)
    requires keys != {}
    ensures key in keys && forall k | k in keys && k != key :: KeyBefore(key, k)
  {
    hide KeyBefore;
    key :| key in keys;
    var rest := keys - {key};
    while rest != {}
      invariant key in keys && key !in rest && rest <= keys
      invariant forall k | k in keys && k != key && k !in rest :: KeyBefore(key, k)
      decreases rest
    {
      var k :| k in rest;
      KeysCompare(key, k);
      if !KeyBefore(key, k) {
        forall x | x in keys && x != k && x !in rest ensures KeyBefore(k, x) {
          if x != key {
            KeysFollow(k, key, x);
          }
        }
        rest := rest - {k};
        key := k;
      } else {
        rest := rest - {k};
      }
    }
  }

  /** What is reported, in order, leaves no choice. */
  lemma {:induction false} OrderDetermines(a: seq<DiffEntry>, b: seq<DiffEntry>)
    requires InOrder(a) && InOrder(b) && forall e :: e in a <==> e in b
    ensures a == b
    decreases |a|
  {
    hide PathBefore;
    EmptyTogether(a, b);
    if a != [] {
      var m, n := |a| - 1, |b| - 1;
      SameLast(a, b);
      forall e ensures e in a[..m] <==> e in b[..n] {
        LastIsNew(a, e);
        LastIsNew(b, e);
      }
      OrderDetermines(a[..m], b[..n]);
      assert a == a[..m] + [a[m]] && b == b[..n] + [b[n]];
    }
  }

  lemma EmptyTogether(a: seq<DiffEntry>, b: seq<DiffEntry>)
    requires forall e :: e in a <==> e in b
    ensures a == [] <==> b == []
  {
    if a != [] {
      assert a[0] in b;
    }
    if b != [] {
      assert b[0] in a;
    }
  }

  lemma LastIsNew(a: seq<DiffEntry>, e: DiffEntry)
    requires InOrder(a) && a != []
    ensures e in a[..|a| - 1] <==> e in a && e != a[|a| - 1]
  {
    hide PathBefore;
    var m := |a| - 1;
    assert a == a[..m] + [a[m]];
    if e in a[..m] {
      var i :| 0 <= i < m && a[i] == e;
      PathsApart(a[i].path, a[m].path);
    }
  }

  lemma SameLast(a: seq<DiffEntry>, b: seq<DiffEntry>)
    requires InOrder(a) && InOrder(b) && a != [] && b != [] && forall e :: e in a <==> e in b
    ensures a[|a| - 1] == b[|b| - 1]
  {
    hide PathBefore;
    var m, n := |a| - 1, |b| - 1;
    assert a[m] in b && b[n] in a;
    var j :| 0 <= j <= n && b[j] == a[m];
    var i :| 0 <= i <= m && a[i] == b[n];
    if j < n && i < m {
      PathsApart(b[j].path, b[n].path);
    }
  }

  method DiffValue(c: Option<Value>, d: Option<Value>, path: Path) returns (changes: seq<DiffEntry>)
    ensures Reports(changes, c, d, path) && InOrder(changes)
    decreases c.Some?, if c.Some? then c.value else Null, d.Some?, if d.Some? then d.value else Null
  {
    hide Reports, ReportsBelow, KeyBefore, PathBefore;
    changes := [];
    if c == d {
      NothingToReport(c, path);
      return;
    }
    if Descends(c, d) {
      var keys := Keys(c) + Keys(d);
      ghost var done: set<string> := {};
      NoKeys(c, d, path);
      while keys != {}
        invariant keys !! done && keys + done == Keys(c) + Keys(d)
        invariant ReportsBelow(changes, c, d, path, done) && InOrder(changes)
        invariant forall k, l | k in done && l in keys :: KeyBefore(k, l)
        decreases keys
      {
        var key := FirstKey(keys);
        var part := DiffValue(Child(c, key), Child(d, key), path + [key]);
        AddKey(changes, c, d, path, done, key, part);
        PartInOrder(changes, c, d, path, done, key, part);
        changes := changes + part;
        keys, done := keys - {key}, done + {key};
      }
      assert done == Keys(c) + Keys(d);
      AllKeys(changes, c, d, path);
      return;
    }
    changes := [DiffEntry(path, d)];
    OneChange(c, d, path);
  }

  lemma NothingToReport(c: Option<Value>, path: Path)
    ensures Reports([], c, c, path)
  {
  }

  lemma NoKeys(c: Option<Value>, d: Option<Value>, path: Path)
    ensures ReportsBelow([], c, d, path, {})
  {
  }

  lemma OneChange(c: Option<Value>, d: Option<Value>, path: Path)
    requires c != d && !Descends(c, d)
    ensures Reports([DiffEntry(path, d)], c, d, path)
  {
    var changes := [DiffEntry(path, d)];
    assert path[|path|..] == [] && ValueAt(d, []) == d && IsChange(c, d, []);
    forall e | IsReported(e, c, d, path) ensures e in changes {
      assert e.path[|path|..] == [];
      assert e.path == path + e.path[|path|..];
      assert e == changes[0];
    }
  }

  /** The difference of two documents. */
  method Diff(current: Document, desired: Document) returns (changes: seq<DiffEntry>)
    ensures Reports(changes, Some(Mapping(current)), Some(Mapping(desired)), []) && InOrder(changes)
  {
    changes := DiffValue(Some(Mapping(current)), Some(Mapping(desired)), []);
  }

  // ---------- Applying the difference ----------

  /** Puts a value at a path, making mappings on the way. */
  function Write(v: Option<Value>, path: Path, value: Value): Value
    decreases path
  {
    if path == [] then value
    else Mapping((if IsMapping(v) then v.value.fields else map[])
         [path[0] := Write(Child(v, path[0]), path[1..], value)])
  }

  ghost predicate NoDeletions(changes: seq<DiffEntry>) {
    forall e | e in changes :: e.desired.Some?
  }

  ghost function ApplyAll(c: Option<Value>, changes: seq<DiffEntry>): Option<Value>
    requires NoDeletions(changes)
    decreases changes
  {
    if changes == [] then c
    else ApplyAll(Some(Write(c, changes[0].path, changes[0].desired.value)), changes[1..])
  }

  /** Writing the desired value at one change settles that change and no other. */
  lemma {:induction false} WriteSettles(c: Option<Value>, d: Option<Value>, p: Path, q: Path)
    requires IsChange(c, d, p) && ValueAt(d, p).Some?
    ensures IsChange(Some(Write(c, p, ValueAt(d, p).value)), d, q) <==> IsChange(c, d, q) && q != p
    decreases p
  {
    var w := Some(Write(c, p, ValueAt(d, p).value));
    if p == [] {
      assert w == d;
    } else {
      var k, rest := p[0], p[1..];
      assert ValueAt(d, p) == ValueAt(Child(d, k), rest);
      SomewhereInside(d, p);
      assert Child(w, k) == Some(Write(Child(c, k), rest, ValueAt(d, p).value));
      assert Keys(w) == Keys(c) + {k};
      if q != [] {
        WriteSettles(Child(c, k), Child(d, k), rest, q[1..]);
        assert q == [q[0]] + q[1..] && p == [k] + rest;
        if q[0] != k {
          assert Child(w, q[0]) == Child(c, q[0]);
        }
        ChangeBelow(w, d, q);
        ChangeBelow(c, d, q);
      }
    }
  }

  lemma SomewhereInside(v: Option<Value>, path: Path)
    requires path != [] && ValueAt(v, path).Some?
    ensures IsMapping(v) && path[0] in v.value.fields
  {
    if Child(v, path[0]).None? {
      NothingInside(path[1..]);
    }
  }

  lemma {:induction false} NothingInside(path: Path)
    ensures ValueAt(None, path) == None
    decreases path
  {
    if path != [] {
      NothingInside(path[1..]);
    }
  }

  lemma ChangeBelow(c: Option<Value>, d: Option<Value>, q: Path)
    requires q != [] && IsMapping(d) && (c.None? || IsMapping(c)) && d.value.fields != map[]
    ensures IsChange(c, d, q) <==> IsChange(Child(c, q[0]), Child(d, q[0]), q[1..])
  {
    if c != d {
      assert Descends(c, d) by {
        var k :| k in d.value.fields;
        assert k in Keys(c) + Keys(d);
      }
    }
  }

  lemma ReportsStep(c: Option<Value>, d: Option<Value>, changes: seq<DiffEntry>)
    requires Reports(changes, c, d, []) && NoDeletions(changes) && changes != []
    ensures Reports(changes[1..], Some(Write(c, changes[0].path, changes[0].desired.value)), d, [])
  {
    var first, rest := changes[0], changes[1..];
    var w := Some(Write(c, first.path, first.desired.value));
    assert first in changes && first.path[0..] == first.path;
    forall e ensures e in rest <==> IsReported(e, w, d, []) {
      assert e.path[0..] == e.path;
      WriteSettles(c, d, first.path, e.path);
      assert e in changes <==> IsReported(e, c, d, []);
      assert e in rest <==> e in changes && e != first;
    }
  }

  /** A difference without deletions, applied to the current value, rebuilds the desired one. */
  lemma {:induction false} ApplyRebuilds(c: Option<Value>, d: Option<Value>, changes: seq<DiffEntry>)
    requires Reports(changes, c, d, []) && NoDeletions(changes)
    ensures ApplyAll(c, changes) == d
    decreases changes
  {
    if changes == [] {
      forall p ensures !IsChange(c, d, p) {
        assert p[0..] == p;
        assert DiffEntry(p, ValueAt(d, p)) !in changes;
      }
      NoChangeIffEqual(c, d);
    } else {
      ReportsStep(c, d, changes);
      ApplyRebuilds(Some(Write(c, changes[0].path, changes[0].desired.value)), d, changes[1..]);
    }
  }

  /** A mapping that is gone and one that has been emptied leave the same difference. */
  lemma DeletedLooksEmptied(doc: Document, key: string, e: DiffEntry)
    requires key in doc && doc[key].Mapping? && doc[key].fields != map[]
    ensures IsReported(e, Some(Mapping(doc)), Some(Mapping(doc - {key})), [])
       <==> IsReported(e, Some(Mapping(doc)), Some(Mapping(doc[key := Mapping(map[])])), [])
  {
    var c, gone, emptied := Some(Mapping(doc)), Some(Mapping(doc - {key})), Some(Mapping(doc[key := Mapping(map[])]));
    assert key in Keys(c);
    assert c != gone && c != emptied && Descends(c, gone) && Descends(c, emptied);
    assert e.path[0..] == e.path;
    if e.path != [] {
      var k, rest := e.path[0], e.path[1..];
      if k == key {
        assert Child(gone, k) == None && Child(emptied, k) == Some(Mapping(map[]));
        DeletedBelow(doc[key], rest);
      } else {
        assert Child(gone, k) == Child(emptied, k);
      }
    }
  }

  lemma DeletedBelow(v: Value, path: Path)
    requires v.Mapping? && v.fields != map[]
    ensures IsChange(Some(v), None, path) <==> IsChange(Some(v), Some(Mapping(map[])), path)
    ensures path != [] ==> ValueAt(None, path) == ValueAt(Some(Mapping(map[])), path)
  {
    var k :| k in v.fields;
    assert k in Keys(Some(v));
  }
}
