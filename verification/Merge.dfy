/** Merging eye configurations (merge in resources/eyes/240x240/tablegen.py): dictionaries updated in place. */
module Merge {
  import opened Options

  /** What a dictionary holds, nested dictionaries included, or a plain value, which may be null. */
  datatype Tree = Leaf(text: Option<string>) | Branch(entries: map<string, Tree>)

  /** The merge stops with an error: a non-empty dictionary is to be merged over a plain value. */
  predicate Conflict(dest: Tree, source: Tree)
    decreases source
  {
    source.Branch? &&
    exists k :: k in source.entries &&
      (dest.Leaf? || (source.entries[k].Branch? && Conflict(Below(dest, k), source.entries[k])))
  }

  /** What `dest` has at a key, an empty dictionary being added where it has nothing. */
  function Below(dest: Tree, k: string): Tree
    requires dest.Branch?
  {
    if k in dest.entries then dest.entries[k] else Branch(map[])
  }

  function Merged(dest: Tree, source: Tree): Tree
    decreases source
  {
    if source.Leaf? then source
    else if dest.Leaf? then dest
    else
      Branch(map k | k in dest.entries.Keys + source.entries.Keys ::
        if k !in source.entries then dest.entries[k]
        else if source.entries[k].Leaf? then source.entries[k]
        else Merged(Below(dest, k), source.entries[k]))
  }

  datatype Value = Plain(text: Option<string>) | Nested(dict: Dict)

  class Dict {
    var entries: map<string, Value>
    ghost var Contents: Tree
    ghost var Repr: set<object>

    ghost predicate Valid()
      reads this, Repr
      decreases Repr, 1
    {
      && this in Repr
      && Contents.Branch? && Contents.entries.Keys == entries.Keys
      && (forall k :: k in entries ==> Holds(entries[k], Contents.entries[k]))
      && (forall j, k :: j in entries && k in entries && j != k ==> Apart(entries[j], entries[k]))
    }

    /** A value stands for a tree. */
    ghost predicate Holds(v: Value, t: Tree)
      requires this in Repr
      reads this, Repr
      decreases Repr, 0
    {
      match v
      case Plain(text) => t == Leaf(text)
      case Nested(d) => d in Repr && d in d.Repr && d.Repr <= Repr - {this} && d.Valid() && d.Contents == t
    }

    ghost static predicate Apart(v: Value, w: Value)
      reads if v.Nested? then {v.dict} else {}
      reads if w.Nested? then {w.dict} else {}
    {
      v.Nested? && w.Nested? ==> v.dict.Repr !! w.dict.Repr
    }

    constructor ()
      ensures Valid() && fresh(Repr) && Contents == Branch(map[])
    {
      entries := map[];
      Contents := Branch(map[]);
      Repr := {this};
    }

    /** dest[k] = v for a plain value. */
    method Put(k: string, text: Option<string>)
      requires Valid()
      modifies this`entries, this`Contents
      ensures Valid() && Contents == Branch(old(Contents).entries[k := Leaf(text)])
    {
      label before:
      entries := entries[k := Plain(text)];
      Contents := Branch(Contents.entries[k := Leaf(text)]);
      forall j | j in entries ensures Holds(entries[j], Contents.entries[j]) {
        if j != k {
          assert old@before(Holds(entries[j], Contents.entries[j]));
        }
      }
    }

    method MergeChild(k: string, d: Dict, v: Dict) returns (ok: bool)
      requires Valid() && v.Valid() && Repr !! v.Repr && k in entries && entries[k] == Nested(d)
      modifies Repr
      ensures Valid() && fresh(Repr - old(Repr))
      ensures ok == !Conflict(old(d.Contents), v.Contents)
      ensures ok ==> d.Contents == Merged(old(d.Contents), v.Contents)
      ensures Contents == Branch(old(Contents).entries[k := d.Contents])
      decreases v.Repr, 3
    {
      hide Conflict, Merged;
      assert Holds(entries[k], Contents.entries[k]);
      ghost var mine := d.Repr;
      forall j | j in entries && j != k && entries[j].Nested?
        ensures var c := entries[j].dict; c in c.Repr && c.Repr !! mine && c.Repr <= Repr && c.Contents == Contents.entries[j]
      {
        assert Holds(entries[j], Contents.entries[j]) && Apart(entries[j], entries[k]);
      }
      ok := d.Merge(v);
      Adopt(k, d);
    }

    /** What was added below the dictionary at k now belongs to this one too. */
    ghost method Adopt(k: string, d: Dict)
      requires this in Repr && Contents.Branch? && Contents.entries.Keys == entries.Keys
      requires k in entries && entries[k] == Nested(d) && d.Valid() && d in d.Repr && this !in d.Repr
      requires forall j :: j in entries && j != k ==>
        Holds(entries[j], Contents.entries[j]) && (entries[j].Nested? ==> entries[j].dict.Repr !! d.Repr)
      requires forall i, j :: i in entries && j in entries && i != j && i != k && j != k ==> Apart(entries[i], entries[j])
      modifies this`Repr, this`Contents
      ensures Valid() && Repr == old(Repr) + d.Repr && Contents == Branch(old(Contents).entries[k := d.Contents])
    {
      label before:
      Repr := Repr + d.Repr;
      Contents := Branch(Contents.entries[k := d.Contents]);
      forall j | j in entries ensures Holds(entries[j], Contents.entries[j]) {
        assert j != k ==> old@before(Holds(entries[j], Contents.entries[j]));
      }
      forall i, j | i in entries && j in entries && i != j ensures Apart(entries[i], entries[j]) {
        assert i != k && j != k ==> old@before(Apart(entries[i], entries[j]));
      }
    }

    /** A dictionary of its own put where there is nothing at k. */
    method Attach(k: string, d: Dict)
      requires Valid() && k !in entries && d.Valid() && d in d.Repr && Repr !! d.Repr
      modifies this
      ensures Valid() && Repr == old(Repr) + d.Repr && k in entries
      ensures Contents == Branch(old(Contents).entries[k := d.Contents])
    {
      label before:
      entries := entries[k := Nested(d)];
      Repr := Repr + d.Repr;
      Contents := Branch(Contents.entries[k := d.Contents]);
      forall j | j in entries ensures Holds(entries[j], Contents.entries[j]) {
        if j != k {
          assert old@before(Holds(entries[j], Contents.entries[j]));
        }
      }
      forall i, j | i in entries && j in entries && i != j ensures Apart(entries[i], entries[j]) {
        assert i != k ==> old@before(Holds(entries[i], Contents.entries[i]));
        assert j != k ==> old@before(Holds(entries[j], Contents.entries[j]));
      }
    }

    /** dest.setdefault(k, {}) where dest has nothing at k. */
    method AddEmpty(k: string)
      requires Valid() && k !in entries
      modifies this
      ensures Valid() && fresh(Repr - old(Repr)) && k in entries
      ensures Contents == Branch(old(Contents).entries[k := Branch(map[])])
    {
      var d := new Dict();
      d.Keys();
      Attach(k, d);
    }

    method CopyEntry(k: string, c: Dict)
      requires Valid() && k in entries && c.Valid() && c in c.Repr && Repr !! c.Repr && k !in c.entries
      modifies c
      ensures c.Valid() && fresh(c.Repr - old(c.Repr))
      ensures c.Contents == Branch(old(c.Contents).entries[k := Contents.entries[k]])
      decreases Repr, 0
    {
      hide Valid, Holds, Apart;
      Keys();
      c.Keys();
      EntryAt(k);
      match entries[k] {
        case Plain(text) =>
          c.Put(k, text);
        case Nested(d) =>
          var e := d.Copy();
          e.Keys();
          c.Attach(k, e);
      }
    }

    /** copy.deepcopy */
    method Copy() returns (c: Dict)
      requires Valid()
      ensures c.Valid() && fresh(c.Repr) && c.Contents == Contents
      decreases Repr, 1
    {
      hide Part, Valid, Holds, Apart;
      Keys();
      c := new Dict();
      var todo := entries.Keys;
      ghost var done: set<string> := {};
      PartOfNone(Contents);
      while todo != {}
        invariant c.Valid() && fresh(c.Repr) && c.Contents == Part(Contents, done)
        invariant done + todo == entries.Keys && done !! todo
        decreases |todo|
      {
        var k :| k in todo;
        c.Keys();
        OneMorePart(Contents, done, k);
        CopyEntry(k, c);
        todo := todo - {k};
        done := done + {k};
      }
      PartOfAll(Contents);
    }

    /** The nested dictionary v merged at k, an error where dest has a plain value and v is not empty. */
    method MergeAt(k: string, v: Dict) returns (ok: bool)
      requires Valid() && v.Valid() && Repr !! v.Repr
      modifies Repr
      ensures Valid() && fresh(Repr - old(Repr))
      ensures ok == !Conflict(Below(old(Contents), k), v.Contents)
      ensures ok ==> Contents == Branch(old(Contents).entries[k := Merged(Below(old(Contents), k), v.Contents)])
      decreases v.Repr, 4
    {
      hide Conflict, Merged;
      if k !in entries {
        AddEmpty(k);
      }
      ghost var before := Contents;
      assert Holds(entries[k], before.entries[k]);
      match entries[k] {
        case Plain(_) =>
          ok := v.entries == map[];
          MergedOverPlain(before.entries[k], v.Contents);
          assert v.entries == map[] <==> v.Contents.entries.Keys == {};
          assert before.entries[k := before.entries[k]] == before.entries;
        case Nested(d) =>
          ok := MergeChild(k, d, v);
      }
    }

    lemma Keys()
      requires Valid()
      ensures this in Repr && Contents.Branch? && Contents.entries.Keys == entries.Keys
    {
    }

    lemma EntryAt(k: string)
      requires Valid() && k in entries
      ensures Contents.Branch? && k in Contents.entries
      ensures match entries[k]
              case Plain(text) => Contents.entries[k] == Leaf(text)
              case Nested(d) => d.Valid() && d.Repr < Repr && Contents.entries[k] == d.Contents
    {
    }

    /** One entry of the source, which stands for the tree t. */
    method MergeEntry(k: string, v: Value, ghost t: Tree) returns (ok: bool)
      requires Valid()
      requires match v
               case Plain(text) => t == Leaf(text)
               case Nested(d) => d.Valid() && Repr !! d.Repr && t == d.Contents
      modifies Repr
      ensures Valid() && fresh(Repr - old(Repr))
      ensures ok == !(t.Branch? && Conflict(Below(old(Contents), k), t))
      ensures ok ==> Contents == Branch(old(Contents).entries[k := if t.Leaf? then t else Merged(Below(old(Contents), k), t)])
      decreases if v.Nested? then v.dict.Repr else {}, 5
    {
      match v {
        case Plain(text) =>
          Put(k, text);
          ok := true;
        case Nested(d) =>
          ok := MergeAt(k, d);
      }
    }

    method Merge(source: Dict) returns (ok: bool)
      requires Valid() && source.Valid() && Repr !! source.Repr
      modifies Repr
      ensures Valid() && fresh(Repr - old(Repr))
      ensures ok == !Conflict(old(Contents), source.Contents)
      ensures ok ==> Contents == Merged(old(Contents), source.Contents)
      // The source is left alone, and nothing is shared with it
      ensures source.Valid() && source.Contents == old(source.Contents) && Repr !! source.Repr
      decreases source.Repr, 2
    {
      hide Conflict, Merged, Part, Valid, Holds, Apart;
      ghost var before, other := Contents, source.Contents;
      Keys();
      source.Keys();
      var todo := source.entries.Keys;
      ghost var done: set<string> := {};
      NothingMerged(before, other);
      while todo != {}
        invariant Valid() && fresh(Repr - old(Repr))
        invariant done + todo == other.entries.Keys && done !! todo
        invariant !Conflict(before, Part(other, done)) && Contents == Merged(before, Part(other, done))
        decreases |todo|
      {
        var k :| k in todo;
        OneMoreMerged(before, other, done, k);
        source.EntryAt(k);
        ok := MergeEntry(k, source.entries[k], other.entries[k]);
        todo := todo - {k};
        done := done + {k};
        if !ok {
          PartConflicts(before, other, done);
          return;
        }
      }
      PartOfAll(other);
      ok := true;
    }
  }

  // ---------------------------------------------------------------- merging key by key

  /** The part of a dictionary at some of its keys. */
  function Part(t: Tree, keys: set<string>): Tree
    requires t.Branch?
  {
    Branch(map k | k in t.entries && k in keys :: t.entries[k])
  }

  lemma MergedOverPlain(dest: Tree, source: Tree)
    requires dest.Leaf? && source.Branch?
    ensures Conflict(dest, source) == (source.entries.Keys != {}) && Merged(dest, source) == dest
  {
  }

  lemma PartOfAll(t: Tree)
    requires t.Branch?
    ensures Part(t, t.entries.Keys) == t
  {
  }

  lemma PartOfNone(t: Tree)
    requires t.Branch?
    ensures Part(t, {}) == Branch(map[])
  {
  }

  lemma OneMorePart(t: Tree, done: set<string>, k: string)
    requires t.Branch? && k in t.entries && k !in done
    ensures Part(t, done).Branch? && k !in Part(t, done).entries
    ensures Part(t, done + {k}) == Branch(Part(t, done).entries[k := t.entries[k]])
  {
  }

  lemma NothingMerged(dest: Tree, source: Tree)
    requires dest.Branch? && source.Branch?
    ensures Merged(dest, Part(source, {})) == dest && !Conflict(dest, Part(source, {}))
  {
  }

  lemma OneMoreMerged(dest: Tree, source: Tree, done: set<string>, k: string)
    requires dest.Branch? && source.Branch? && k in source.entries && k !in done
    requires !Conflict(dest, Part(source, done))
    ensures var m, v := Merged(dest, Part(source, done)), source.entries[k];
      && m.Branch? && Below(m, k) == Below(dest, k)
      && Conflict(dest, Part(source, done + {k})) == (v.Branch? && Conflict(Below(dest, k), v))
      && Merged(dest, Part(source, done + {k}))
         == Branch(m.entries[k := if v.Leaf? then v else Merged(Below(dest, k), v)])
  {
    var m, v := Merged(dest, Part(source, done)), source.entries[k];
    var now := Merged(dest, Part(source, done + {k}));
    assert now.entries == m.entries[k := if v.Leaf? then v else Merged(Below(dest, k), v)];
    var p, q := Part(source, done), Part(source, done + {k});
    assert forall j :: j in q.entries ==> j == k || (j in p.entries && p.entries[j] == q.entries[j]);
    assert k in q.entries && q.entries[k] == v;
  }

  lemma PartConflicts(dest: Tree, source: Tree, keys: set<string>)
    requires dest.Branch? && source.Branch? && Conflict(dest, Part(source, keys))
    ensures Conflict(dest, source)
  {
  }

  // ---------------------------------------------------------------- a pair of eyes

  /** params.get(k): null where there is nothing. */
  function Given(t: Tree, k: string): Tree
    requires t.Branch?
  {
    if k in t.entries then t.entries[k] else Leaf(None)
  }

  /** A null, or a dictionary without a parameter that is called "key": what one check lets through. */
  predicate PassesCheck(t: Tree) {
    if t.Leaf? then t.text == None else Given(t, "key") == Leaf(None)
  }

  predicate PassesChecks(t: Tree) {
    t.Branch? && PassesCheck(t) && PassesCheck(Given(t, "pupil")) && PassesCheck(Given(t, "iris"))
  }

  /** The check that a parameter below `parents` is absent, which looks for one called "key" whatever `key` is. */
  method CheckParamAbsent(params: Dict, parents: seq<string>, key: string) returns (ok: bool)
    requires params.Valid()
    ensures ok == PassesCheck(if parents == [] then params.Contents else Given(params.Contents, parents[|parents| - 1]))
  {
    params.Keys();
    var node := Nested(params);
    for i := 0 to |parents|
      invariant i == 0 ==> node == Nested(params)
      invariant i > 0 ==> node == if parents[i - 1] in params.entries then params.entries[parents[i - 1]] else Plain(None)
    {
      node := if parents[i] in params.entries then params.entries[parents[i]] else Plain(None);
    }
    if parents != [] && parents[|parents| - 1] in params.entries {
      params.EntryAt(parents[|parents| - 1]);
    }
    match node {
      case Plain(text) =>
        return text == None;
      case Nested(d) =>
        d.Keys();
        if "key" in d.entries {
          d.EntryAt("key");
        }
        return "key" !in d.entries || d.entries["key"] == Plain(None);
    }
  }

  method ValidateSingleEyeParams(params: Dict) returns (ok: bool)
    requires params.Valid()
    ensures ok == PassesChecks(params.Contents)
  {
    params.Keys();
    ok := CheckParamAbsent(params, [], "radius");
    if ok {
      ok := CheckParamAbsent(params, ["pupil"], "slitRadius");
    }
    if ok {
      ok := CheckParamAbsent(params, ["iris"], "radius");
    }
  }

  /** What an eye gets: the common parameters with its own merged over them, under its own name. */
  function EyeParams(common: Tree, own: Tree, name: string): Tree {
    Named(Merged(common, own), name)
  }

  function Named(t: Tree, name: string): Tree {
    if t.Leaf? then t else Branch(t.entries["name" := Leaf(Some(name))])
  }

  /** A configuration of its own that an eye can have. */
  predicate IsAccepted(common: Tree, own: Tree) {
    PassesChecks(own) && !Conflict(common, own)
  }

  /** One eye of a pair: nothing is shared with the parameters it is made of. */
  method OneEye(params: Dict, own: Dict, name: string) returns (ok: bool, eye: Dict)
    requires params.Valid() && own.Valid()
    ensures eye.Valid() && fresh(eye.Repr)
    ensures ok == IsAccepted(params.Contents, own.Contents)
    ensures ok ==> eye.Contents == EyeParams(params.Contents, own.Contents, name)
  {
    hide Conflict, Merged, PassesChecks, Dict.Valid;
    params.Keys();
    ok := ValidateSingleEyeParams(own);
    if !ok {
      eye := new Dict();
      return;
    }
    eye := params.Copy();
    ok := eye.Merge(own);
    if ok {
      eye.Keys();
      eye.Put("name", Some(name));
    }
  }

  /**
   The eyes of loadEyeConfig, `name` being that in the parameters: two, if either has parameters of its
   own, or one.  The two share no dictionary with each other or with what they are made of, and nothing
   they are made of is changed.
   */
  method LoadEyes(params: Dict, leftConfig: Dict, rightConfig: Dict, name: string) returns (ok: bool, eyes: seq<Dict>)
    requires params.Valid() && leftConfig.Valid() && rightConfig.Valid()
    modifies params`entries, params`Contents
    ensures forall e :: e in eyes ==> e.Valid()
    ensures old(leftConfig.entries == map[] && rightConfig.entries == map[]) ==>
      ok && eyes == [params] && params.Contents == Named(old(params.Contents), name + ".eye")
    ensures old(leftConfig.entries != map[] || rightConfig.entries != map[]) ==>
      && unchanged(params)
      && ok == (IsAccepted(params.Contents, leftConfig.Contents) && IsAccepted(params.Contents, rightConfig.Contents))
      && (ok ==>
           && |eyes| == 2 && fresh(eyes[0].Repr) && fresh(eyes[1].Repr) && eyes[0].Repr !! eyes[1].Repr
           && eyes[0].Contents == EyeParams(params.Contents, leftConfig.Contents, name + ".left")
           && eyes[1].Contents == EyeParams(params.Contents, rightConfig.Contents, name + ".right"))
  {
    hide Conflict, Merged, PassesChecks, IsAccepted, EyeParams;
    eyes := [];
    if leftConfig.entries != map[] || rightConfig.entries != map[] {
      var left, right;
      ok, left := OneEye(params, leftConfig, name + ".left");
      if !ok {
        return;
      }
      ok, right := OneEye(params, rightConfig, name + ".right");
      if ok {
        eyes := [left, right];
      }
    } else {
      params.Keys();
      params.Put("name", Some(name + ".eye"));
      return true, [params];
    }
  }

  // ---------------------------------------------------------------- what the check misses

  /** An eye of a pair sets a parameter that both have to share. */
  predicate SetsShared(t: Tree) {
    IsSet(t, ["radius"]) || IsSet(t, ["pupil", "slitRadius"]) || IsSet(t, ["iris", "radius"])
  }

  predicate IsSet(t: Tree, path: seq<string>) {
    At(t, path).Some? && At(t, path).value != Leaf(None)
  }

  /** Something is called "key" where the check looks, or is no dictionary where it needs one. */
  predicate HasKey(t: Tree) {
    || IsSet(t, ["key"]) || IsSet(t, ["pupil", "key"]) || IsSet(t, ["iris", "key"])
    || IsPlain(t, ["pupil"]) || IsPlain(t, ["iris"])
  }

  predicate IsPlain(t: Tree, path: seq<string>) {
    IsSet(t, path) && At(t, path).value.Leaf?
  }

  lemma AtOne(t: Tree, k: string)
    requires t.Branch?
    ensures At(t, [k]) == if k in t.entries then Some(t.entries[k]) else None
  {
    assert [k][1..] == [];
  }

  lemma AtTwo(t: Tree, j: string, k: string)
    requires t.Branch?
    ensures At(t, [j, k]) == if j in t.entries then At(t.entries[j], [k]) else None
  {
    assert [j, k][1..] == [k];
  }

  lemma OneCheck(t: Tree, part: string)
    requires t.Branch?
    ensures PassesCheck(Given(t, part)) <==> !IsSet(t, [part, "key"]) && !IsPlain(t, [part])
  {
    AtOne(t, part);
    AtTwo(t, part, "key");
    if part in t.entries {
      if t.entries[part].Branch? {
        AtOne(t.entries[part], "key");
      } else {
        assert At(t.entries[part], ["key"]) == None;
      }
    }
  }

  lemma ChecksLookForKey(t: Tree)
    requires t.Branch?
    ensures PassesChecks(t) <==> !HasKey(t)
  {
    hide At, PassesCheck;
    TopCheck(t);
    OneCheck(t, "pupil");
    OneCheck(t, "iris");
  }

  lemma TopCheck(t: Tree)
    requires t.Branch?
    ensures PassesCheck(t) <==> !IsSet(t, ["key"])
  {
    AtOne(t, "key");
  }

  /**
   The check is there to refuse eyes that set a shared parameter.  It does so for an eye exactly when
   there is nothing to refuse, or something in it happens to be called "key" or is no dictionary.
   */
  lemma SharedIsRefusedExactlyWhen(t: Tree)
    requires t.Branch?
    ensures (SetsShared(t) ==> !PassesChecks(t)) <==> !SetsShared(t) || HasKey(t)
  {
    ChecksLookForKey(t);
  }

  /** An eye with a radius of its own gets through. */
  lemma RadiusSlipsThrough()
    ensures var t := Branch(map["radius" := Leaf(Some("125"))]);
      SetsShared(t) && PassesChecks(t)
  {
    var t := Branch(map["radius" := Leaf(Some("125"))]);
    AtOne(t, "radius");
    assert "key" !in t.entries && "pupil" !in t.entries && "iris" !in t.entries;
  }

  // ---------------------------------------------------------------- what merging means

  /** What is at the end of a path of keys. */
  function At(t: Tree, path: seq<string>): Option<Tree> {
    if path == [] then Some(t)
    else if t.Branch? && path[0] in t.entries then At(t.entries[path[0]], path[1..])
    else None
  }

  /** The source has a plain value at the path or above it. */
  predicate Overrides(source: Tree, path: seq<string>) {
    source.Leaf? || (path != [] && path[0] in source.entries && Overrides(source.entries[path[0]], path[1..]))
  }

  /** The plain values of the result are those of the source and, where it does not override them, those of dest. */
  lemma {:induction false} MergedLeaves(dest: Tree, source: Tree, path: seq<string>, text: Option<string>)
    requires !Conflict(dest, source)
    ensures At(Merged(dest, source), path) == Some(Leaf(text))
       <==> At(source, path) == Some(Leaf(text))
            || (At(dest, path) == Some(Leaf(text)) && !Overrides(source, path))
    decreases path
  {
    if path != [] && source.Branch? && dest.Branch? && path[0] in source.entries {
      var k := path[0];
      if source.entries[k].Branch? {
        MergedLeaves(Below(dest, k), source.entries[k], path[1..], text);
        assert k !in dest.entries ==> At(Below(dest, k), path[1..]) != Some(Leaf(text));
      }
    } else if path != [] && source.Branch? && dest.Leaf? {
      assert source.entries.Keys == {};
    }
  }

  /** Merging the same source again changes nothing. */
  lemma {:induction false} MergedTwice(dest: Tree, source: Tree)
    requires !Conflict(dest, source)
    ensures !Conflict(Merged(dest, source), source)
    ensures Merged(Merged(dest, source), source) == Merged(dest, source)
    decreases source
  {
    if dest.Branch? && source.Branch? {
      var once := Merged(dest, source);
      forall k | k in source.entries && source.entries[k].Branch?
        ensures !Conflict(Below(once, k), source.entries[k])
        ensures Merged(Below(once, k), source.entries[k]) == once.entries[k]
      {
        MergedTwice(Below(dest, k), source.entries[k]);
      }
      assert Merged(once, source).entries == once.entries;
    }
  }

  predicate ConflictAt(dest: Tree, source: Tree, path: seq<string>) {
    && At(dest, path).Some? && At(dest, path).value.Leaf?
    && At(source, path).Some? && At(source, path).value.Branch? && At(source, path).value.entries.Keys != {}
  }

  /** The merge fails exactly when the source has a non-empty dictionary where dest has a plain value. */
  lemma {:induction false} ConflictExactlyWhen(dest: Tree, source: Tree)
    ensures Conflict(dest, source) <==> exists path :: ConflictAt(dest, source, path)
    decreases source
  {
    if Conflict(dest, source) {
      if dest.Leaf? {
        assert ConflictAt(dest, source, []);
      } else {
        var k :| k in source.entries && source.entries[k].Branch? && Conflict(Below(dest, k), source.entries[k]);
        ConflictExactlyWhen(Below(dest, k), source.entries[k]);
        var path :| ConflictAt(Below(dest, k), source.entries[k], path);
        assert k in dest.entries;
        assert ([k] + path)[1..] == path;
        assert ConflictAt(dest, source, [k] + path);
      }
    }
    forall path | ConflictAt(dest, source, path) ensures Conflict(dest, source) {
      if path != [] {
        var k := path[0];
        ConflictExactlyWhen(Below(dest, k), source.entries[k]);
        assert ConflictAt(Below(dest, k), source.entries[k], path[1..]);
      }
    }
  }
  /** An eye's parameters: its own name, and beside it what merging gives. */
  lemma EyeIsNamed(common: Tree, own: Tree, name: string, path: seq<string>)
    requires common.Branch? && own.Branch? && path != []
    ensures At(EyeParams(common, own, name), path)
         == if path[0] != "name" then At(Merged(common, own), path)
            else if |path| == 1 then Some(Leaf(Some(name))) else None
  {
    var t := Merged(common, own);
    assert t.Branch?;
    assert At(Leaf(Some(name)), path[1..]) == if |path| == 1 then Some(Leaf(Some(name))) else None;
    hide Merged;
  }
}
