/** The endpoint names of the Master server, flattened from a tree of maps (master/server/Master.cpp). */
module Endpoints {
  import opened Options

  /** What the configuration library makes of a node that is no map: text, or an error. */
  datatype Node = Value(text: Option<string>) | Map(entries: seq<Entry>)

  /** An entry whose key reads as text, or not. */
  datatype Entry = Unreadable | Entry(key: string, node: Node)

  const UNKNOWN: string := "ERROR: unknown endpoint"

  function Extended(prefix: string, key: string): string {
    if prefix == "" then key else prefix + "." + key
  }

  /** How far flattening came: the endpoints defined, and whether everything could be read. */
  datatype Progress = Progress(endpoints: map<string, string>, ok: bool)

  /** Flattening a node, up to the first thing in it that cannot be read. */
  function Flat(node: Node, prefix: string, endpoints: map<string, string>): Progress
    decreases node, 1
  {
    match node
    case Value(text) =>
      if text.Some? then Progress(endpoints[prefix := text.value], true) else Progress(endpoints, false)
    case Map(entries) => FlatEntries(entries, prefix, endpoints)
  }

  function FlatEntries(entries: seq<Entry>, prefix: string, endpoints: map<string, string>): Progress
    decreases entries, 0
  {
    if entries == [] then Progress(endpoints, true)
    else
      var e := entries[0];
      if e.Unreadable? then Progress(endpoints, false)
      else
        var p := Flat(e.node, Extended(prefix, e.key), endpoints);
        if p.ok then FlatEntries(entries[1..], prefix, p.endpoints) else p
  }

  class Master {
    var endpoints: map<string, string>

    constructor ()
      ensures endpoints == map[]
    {
      endpoints := map[];
    }

    method Flatten(node: Node, prefix: string) returns (ok: bool)
      modifies this
      ensures Progress(endpoints, ok) == Flat(node, prefix, old(endpoints))
      decreases node
    {
      match node {
        case Map(entries) =>
          for i := 0 to |entries|
            invariant FlatEntries(entries[i..], prefix, endpoints) == FlatEntries(entries, prefix, old(endpoints))
          {
            var entry := entries[i];
            assert entries[i..][1..] == entries[i + 1..];
            if entry.Unreadable? {
              return false;
            }
            var newPrefix := if prefix == "" then entry.key else prefix + "." + entry.key;
            ok := Flatten(entry.node, newPrefix);
            if !ok {
              return;
            }
          }
          return true;
        case Value(text) =>
          if text.None? {
            return false;
          }
          endpoints := endpoints[prefix := text.value];
          return true;
      }
    }

    method Load(config: Node) returns (ok: bool)
      modifies this
      ensures Progress(endpoints, ok) == Flat(config, "", old(endpoints))
    {
      ok := Flatten(config, "");
    }

    function Lookup(name: string): string
      reads this
    {
      if name in endpoints then endpoints[name] else UNKNOWN
    }
  }

  // ---------------------------------------------------------------- names and paths

  predicate IsKey(k: string) {
    k != "" && '.' !in k
  }

  /** The parts of a name between its dots. */
  function Split(name: string): (r: seq<string>)
    ensures r != []
  {
    if name == "" then [""]
    else
      var n := |name| - 1;
      var s := Split(name[..n]);
      if name[n] == '.' then s + [""] else s[..|s| - 1] + [s[|s| - 1] + [name[n]]]
  }

  function Join(path: seq<string>): string {
    if path == [] then ""
    else if |path| == 1 then path[0]
    else Join(path[..|path| - 1]) + "." + path[|path| - 1]
  }

  lemma {:induction false} SplitLastPart(a: string, k: string)
    requires '.' !in k
    ensures var s := Split(a); Split(a + k) == s[..|s| - 1] + [s[|s| - 1] + k]
    decreases |k|
  {
    var s := Split(a);
    if k == "" {
      assert a + k == a && s[|s| - 1] + k == s[|s| - 1];
    } else {
      var n := |k| - 1;
      assert (a + k)[..|a + k| - 1] == a + k[..n];
      SplitLastPart(a, k[..n]);
      assert s[|s| - 1] + k[..n] + [k[n]] == s[|s| - 1] + k;
    }
  }

  lemma SplitOnDot(a: string, k: string)
    requires '.' !in k
    ensures Split(a + "." + k) == Split(a) + [k]
  {
    assert (a + ".")[..|a|] == a;
    SplitLastPart(a + ".", k);
    assert "" + k == k;
  }

  lemma {:induction false} SplitJoin(path: seq<string>)
    requires path != [] && forall k :: k in path ==> IsKey(k)
    ensures Split(Join(path)) == path
  {
    var n := |path| - 1;
    assert path == path[..n] + [path[n]];
    assert path[n] in path;
    if n == 0 {
      SplitLastPart("", path[0]);
      assert "" + path[0] == path[0];
    } else {
      SplitJoin(path[..n]);
      SplitOnDot(Join(path[..n]), path[n]);
    }
  }

  function Dotted(name: string, key: string): string {
    name + "." + key
  }

  lemma DottedAppend(name: string, key: string, more: string)
    ensures Dotted(name, key + more) == Dotted(name, key) + more
  {
  }

  lemma JoinStep(path: seq<string>, last: string)
    ensures Join(path + [last]) == if path == [] then last else Dotted(Join(path), last)
  {
    assert (path + [last])[..|path|] == path;
  }

  lemma JoinLastPart(before: seq<string>, last: string, more: string)
    ensures Join(before + [last + more]) == Join(before + [last]) + more
  {
    hide Join, Dotted;
    JoinStep(before, last + more);
    JoinStep(before, last);
    DottedAppend(Join(before), last, more);
  }

  lemma SplitStep(name: string)
    requires name != ""
    ensures var n := |name| - 1;
      var s := Split(name[..n]);
      Split(name) == if name[n] == '.' then s + [""] else s[..|s| - 1] + [s[|s| - 1] + [name[n]]]
  {
  }

  lemma JoinOfNothing()
    ensures Join(Split("")) == ""
  {
  }

  lemma {:induction false} JoinSplit(name: string)
    ensures Join(Split(name)) == name
  {
    hide Join, Split, Dotted;
    if name == "" {
      JoinOfNothing();
    } else {
      var n := |name| - 1;
      JoinSplit(name[..n]);
      SplitStep(name);
      var s := Split(name[..n]);
      if name[n] == '.' {
        JoinStep(s, "");
        DotAtEnd(name);
      } else {
        JoinLastPart(s[..|s| - 1], s[|s| - 1], [name[n]]);
        assert s[..|s| - 1] + [s[|s| - 1]] == s;
      }
    }
  }

  lemma DotAtEnd(name: string)
    requires name != "" && name[|name| - 1] == '.'
    ensures Dotted(name[..|name| - 1], "") == name
  {
  }

  lemma {:induction false} JoinExtends(path: seq<string>, key: string)
    requires forall k :: k in path ==> IsKey(k)
    ensures Extended(Join(path), key) == Join(path + [key])
  {
    assert (path + [key])[..|path|] == path;
    if path != [] {
      assert Join(path) != "" by {
        if |path| == 1 { assert path[0] in path; }
      }
    }
  }

  // ---------------------------------------------------------------- looking names up in the tree

  /** Everything in a node can be read. */
  predicate Readable(node: Node)
    decreases node, 1
  {
    match node
    case Value(text) => text.Some?
    case Map(entries) => ReadableEntries(entries)
  }

  predicate ReadableEntries(entries: seq<Entry>)
    decreases entries, 0
  {
    entries == [] || (entries[0].Entry? && Readable(entries[0].node) && ReadableEntries(entries[1..]))
  }

  /** Flattening gets to the end if and only if everything can be read. */
  lemma {:induction false} FlattensExactlyWhen(node: Node, prefix: string, endpoints: map<string, string>)
    ensures Flat(node, prefix, endpoints).ok <==> Readable(node)
    decreases node, 1
  {
    if node.Map? { EntriesFlattenExactlyWhen(node.entries, prefix, endpoints); }
  }

  lemma {:induction false} EntriesFlattenExactlyWhen(entries: seq<Entry>, prefix: string, endpoints: map<string, string>)
    ensures FlatEntries(entries, prefix, endpoints).ok <==> ReadableEntries(entries)
    decreases entries, 0
  {
    if entries != [] && entries[0].Entry? {
      var e := entries[0];
      var longer := Extended(prefix, e.key);
      FlattensExactlyWhen(e.node, longer, endpoints);
      EntriesFlattenExactlyWhen(entries[1..], prefix, Flat(e.node, longer, endpoints).endpoints);
    }
  }

  /** Keys are non-empty, free of dots and distinct in every map. */
  predicate WellFormed(node: Node)
    decreases node, 1
  {
    node.Map? ==> WellFormedEntries(node.entries)
  }

  predicate WellFormedEntries(entries: seq<Entry>)
    decreases entries, 0
  {
    entries == [] ||
    (&& entries[0].Entry? && IsKey(entries[0].key) && WellFormed(entries[0].node)
     && (forall k :: 1 <= k < |entries| && entries[k].Entry? ==> entries[k].key != entries[0].key)
     && WellFormedEntries(entries[1..]))
  }

  /** The text at the end of a path. */
  function Find(node: Node, path: seq<string>): Option<string>
    decreases node, 1
  {
    match node
    case Value(text) => if path == [] then text else None
    case Map(entries) => if path == [] then None else FindEntry(entries, path)
  }

  function FindEntry(entries: seq<Entry>, path: seq<string>): Option<string>
    requires path != []
    decreases entries, 0
  {
    if entries == [] then None
    else if entries[0].Entry? && entries[0].key == path[0] then Find(entries[0].node, path[1..])
    else FindEntry(entries[1..], path)
  }

  /** What a node at `path` holds under a name's parts. */
  function Under(node: Node, path: seq<string>, parts: seq<string>): Option<string> {
    if path <= parts then Find(node, parts[|path|..]) else None
  }

  function UnderEntries(entries: seq<Entry>, path: seq<string>, parts: seq<string>): Option<string> {
    if path < parts then FindEntry(entries, parts[|path|..]) else None
  }

  /** Flattening a node at some path defines just the names of its leaves. */
  lemma {:induction false} FlatFinds(node: Node, path: seq<string>, endpoints: map<string, string>, name: string)
    requires WellFormed(node) && Readable(node) && (path != [] || node.Map?) && forall k :: k in path ==> IsKey(k)
    ensures Get(Flat(node, Join(path), endpoints).endpoints, name)
         == OrElse(Under(node, path, Split(name)), Get(endpoints, name))
    decreases node, 1
  {
    match node {
      case Value(_) =>
        SplitJoin(path);
        JoinSplit(name);
        var parts := Split(name);
        assert path <= parts && parts[|path|..] == [] <==> parts == path;
      case Map(entries) =>
        FlatFindsEntries(entries, path, endpoints, name);
    }
  }

  lemma {:induction false} FlatFindsEntries(entries: seq<Entry>, path: seq<string>, endpoints: map<string, string>,
                                            name: string)
    requires WellFormedEntries(entries) && ReadableEntries(entries) && forall k :: k in path ==> IsKey(k)
    ensures Get(FlatEntries(entries, Join(path), endpoints).endpoints, name)
         == OrElse(UnderEntries(entries, path, Split(name)), Get(endpoints, name))
    decreases entries, 0
  {
    hide Join, Split, Extended, Under, UnderEntries, Find, FindEntry, Flat, Readable, WellFormed;
    if entries != [] {
      var e, rest := entries[0], entries[1..];
      assert entries == [e] + rest;
      var longer := path + [e.key];
      JoinExtends(path, e.key);
      FlattensExactlyWhen(e.node, Join(longer), endpoints);
      var first := Flat(e.node, Join(longer), endpoints);
      FlatFinds(e.node, longer, endpoints, name);
      FlatFindsEntries(rest, path, first.endpoints, name);
      UnderFirst(e, rest, path, Split(name));
    } else {
      NothingUnder(path, Split(name));
    }
  }

  lemma NothingUnder(path: seq<string>, parts: seq<string>)
    ensures UnderEntries([], path, parts) == None
  {
  }

  lemma {:induction false} NoSuchEntry(entries: seq<Entry>, path: seq<string>)
    requires path != [] && forall k :: 0 <= k < |entries| && entries[k].Entry? ==> entries[k].key != path[0]
    ensures FindEntry(entries, path) == None
  {
    if entries != [] { NoSuchEntry(entries[1..], path); }
  }

  /** Keys being distinct, a name falls under the first entry or under the rest, not both. */
  lemma UnderFirst(e: Entry, rest: seq<Entry>, path: seq<string>, parts: seq<string>)
    requires e.Entry? && forall k :: 0 <= k < |rest| && rest[k].Entry? ==> rest[k].key != e.key
    ensures UnderEntries([e] + rest, path, parts)
         == OrElse(UnderEntries(rest, path, parts), Under(e.node, path + [e.key], parts))
  {
    assert ([e] + rest)[1..] == rest;
    if path < parts {
      var below := parts[|path|..];
      var longer := path + [e.key];
      if below[0] == e.key {
        NoSuchEntry(rest, below);
        assert longer <= parts;
        assert below[1..] == parts[|longer|..];
      } else {
        assert !(longer <= parts);
      }
    }
  }

  /**
   Once a map has been loaded, looking up a dotted name is looking up its parts in the tree, and a name
   that leads to no text is unknown.
   */
  lemma LookupIsTreeLookup(master: Master, root: Node, name: string)
    requires root.Map? && WellFormed(root) && Progress(master.endpoints, true) == Flat(root, "", map[])
    ensures master.Lookup(name)
         == match Find(root, Split(name))
            case Some(text) => text
            case None => UNKNOWN
  {
    FlattensExactlyWhen(root, "", map[]);
    FlatFinds(root, [], map[], name);
    assert Split(name)[0..] == Split(name);
  }

  /** In particular the text at any path of keys is found under the keys joined by dots. */
  lemma PathIsFound(master: Master, root: Node, path: seq<string>)
    requires root.Map? && WellFormed(root) && Progress(master.endpoints, true) == Flat(root, "", map[])
    requires path != [] && forall k :: k in path ==> IsKey(k)
    ensures Find(root, path).Some? ==> master.Lookup(Join(path)) == Find(root, path).value
    ensures Find(root, path).None? ==> master.Lookup(Join(path)) == UNKNOWN
  {
    SplitJoin(path);
    LookupIsTreeLookup(master, root, Join(path));
  }
}
