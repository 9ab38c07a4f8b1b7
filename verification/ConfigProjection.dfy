/**
 Checking a patch by reading the running configuration back: the leaves of the patch are
 compared one by one.
 */
module ConfigProjection {
  import opened Prelude
  import opened ConfigDiff

  /** Everything but a mapping with fields is a leaf. */
  predicate IsNode(v: Value) {
    v.Mapping? && v.fields != map[]
  }

  ghost predicate IsLeaf(v: Value, path: Path, leaf: Value)
    decreases path
  {
    if IsNode(v) then path != [] && path[0] in v.fields && IsLeaf(v.fields[path[0]], path[1..], leaf)
    else path == [] && leaf == v
  }

  datatype Leaf = Leaf(path: Path, value: Value)

  ghost predicate IsListed(l: Leaf, v: Value, path: Path) {
    path <= l.path && IsLeaf(v, l.path[|path|..], l.value)
  }

  method CollectLeaves(v: Value, path: Path) returns (leaves: seq<Leaf>)
    ensures forall l :: l in leaves <==> IsListed(l, v, path)
    decreases v
  {
    if !IsNode(v) {
      assert path[|path|..] == [];
      leaves := [Leaf(path, v)];
      forall l | IsListed(l, v, path) ensures l in leaves {
        assert l.path == path + l.path[|path|..];
        assert l == leaves[0];
      }
      return;
    }
    hide IsListed;
    leaves := [];
    var todo := v.fields.Keys;
    while todo != {}
      invariant todo <= v.fields.Keys
      invariant forall l ::
        l in leaves <==> IsListed(l, v, path) && |l.path| > |path| && l.path[|path|] in v.fields.Keys - todo
      decreases todo
    {
      var key :| key in todo;
      var below := CollectLeaves(v.fields[key], path + [key]);
      forall l: Leaf ensures l in below <==> IsListed(l, v, path) && |l.path| > |path| && l.path[|path|] == key {
        ListedBelow(l, v, path, key);
      }
      leaves := leaves + below;
      todo := todo - {key};
    }
    forall l: Leaf | IsListed(l, v, path) ensures |l.path| > |path| && l.path[|path|] in v.fields.Keys {
      ListedInside(l, v, path);
    }
  }

  lemma ListedBelow(l: Leaf, v: Value, path: Path, key: string)
    requires IsNode(v) && key in v.fields
    ensures IsListed(l, v.fields[key], path + [key]) <==>
      IsListed(l, v, path) && |l.path| > |path| && l.path[|path|] == key
  {
    if path <= l.path && |l.path| > |path| {
      var rest := l.path[|path|..];
      assert rest[0] == l.path[|path|] && rest[1..] == l.path[|path| + 1..];
      if rest[0] == key {
        assert path + [key] <= l.path;
      }
    }
  }

  lemma ListedInside(l: Leaf, v: Value, path: Path)
    requires IsNode(v) && IsListed(l, v, path)
    ensures |l.path| > |path| && l.path[|path|] in v.fields
  {
    var rest := l.path[|path|..];
    assert rest[0] == l.path[|path|];
  }

  /** The running configuration contains the patch, whatever else it holds. */
  ghost predicate Agrees(actual: Option<Value>, v: Value)
    decreases v
  {
    if IsNode(v) then forall key | key in v.fields :: Agrees(Child(actual, key), v.fields[key])
    else actual == Some(v)
  }

  ghost predicate AtLeaves(actual: Option<Value>, v: Value) {
    forall path, leaf | IsLeaf(v, path, leaf) :: ValueAt(actual, path) == Some(leaf)
  }

  lemma {:induction false} AgreesAtLeaf(actual: Option<Value>, v: Value, path: Path, leaf: Value)
    requires Agrees(actual, v) && IsLeaf(v, path, leaf)
    ensures ValueAt(actual, path) == Some(leaf)
    decreases path
  {
    if IsNode(v) {
      AgreesAtLeaf(Child(actual, path[0]), v.fields[path[0]], path[1..], leaf);
    }
  }

  lemma {:induction false} LeavesAgree(actual: Option<Value>, v: Value)
    requires AtLeaves(actual, v)
    ensures Agrees(actual, v)
    decreases v
  {
    if IsNode(v) {
      forall key | key in v.fields ensures Agrees(Child(actual, key), v.fields[key]) {
        forall path, leaf | IsLeaf(v.fields[key], path, leaf) ensures ValueAt(Child(actual, key), path) == Some(leaf) {
          var whole := [key] + path;
          assert whole[0] == key && whole[1..] == path;
          assert IsLeaf(v, whole, leaf);
        }
        LeavesAgree(Child(actual, key), v.fields[key]);
      }
    } else {
      assert IsLeaf(v, [], v) && ValueAt(actual, []) == actual;
    }
  }

  /** Agreement at every leaf is agreement, and nothing less. */
  lemma LeavesDecide(actual: Option<Value>, v: Value)
    ensures Agrees(actual, v) <==> AtLeaves(actual, v)
  {
    if Agrees(actual, v) {
      forall path, leaf | IsLeaf(v, path, leaf) ensures ValueAt(actual, path) == Some(leaf) {
        AgreesAtLeaf(actual, v, path, leaf);
      }
    }
    if AtLeaves(actual, v) {
      LeavesAgree(actual, v);
    }
  }

  /** Verifying the projection of a patch accepts exactly the configurations that contain it. */
  method Verify(patch: Value, actual: Value) returns (ok: bool)
    ensures ok <==> Agrees(Some(actual), patch)
  {
    hide Agrees;
    var leaves := CollectLeaves(patch, []);
    LeavesDecide(Some(actual), patch);
    forall path, leaf ensures IsLeaf(patch, path, leaf) <==> Leaf(path, leaf) in leaves {
      assert path[0..] == path;
      assert Leaf(path, leaf) in leaves <==> IsListed(Leaf(path, leaf), patch, []);
    }
    ok := forall l | l in leaves :: ValueAt(Some(actual), l.path) == Some(l.value);
    forall l | l in leaves ensures IsLeaf(patch, l.path, l.value) {
      assert l == Leaf(l.path, l.value);
    }
  }
}
