/** Paths, as `get_entry_from_path` of src/fs/fat.rs takes them apart. */
module FatPaths {
  import opened Basics
  import opened FatVolume
  import opened FatDirectory
  import opened Fat

  /** The parts with a slash between any two of them. */
  function Join(parts: seq<string>): string
    requires parts != []
  {
    if |parts| == 1 then parts[0] else parts[0] + "/" + Join(parts[1..])
  }

  predicate NoSlash(parts: seq<string>) {
    forall i :: 0 <= i < |parts| ==> '/' !in parts[i]
  }

  lemma {:induction false} JoinSlash(rest: seq<string>)
    requires rest != []
    ensures Join([""] + rest) == "/" + Join(rest)
  {
    assert ([""] + rest)[1..] == rest;
  }

  lemma {:induction false} JoinLonger(c: char, rest: seq<string>)
    requires rest != []
    ensures Join([[c] + rest[0]] + rest[1..]) == [c] + Join(rest)
  {
    assert ([[c] + rest[0]] + rest[1..])[1..] == rest[1..];
  }

  /** Splitting loses nothing, and leaves no slash in any part. */
  lemma {:induction false} SplitThenJoin(path: string)
    ensures Join(Split(path)) == path && NoSlash(Split(path))
  {
    if path != "" {
      var rest := Split(path[1..]);
      SplitThenJoin(path[1..]);
      assert path == [path[0]] + path[1..];
      if path[0] == '/' {
        JoinSlash(rest);
      } else {
        JoinLonger(path[0], rest);
        LongerNoSlash(path[0], rest);
      }
    }
  }

  lemma {:induction false} LongerNoSlash(c: char, rest: seq<string>)
    requires rest != [] && NoSlash(rest) && c != '/'
    ensures NoSlash([[c] + rest[0]] + rest[1..])
  {
    var parts := [[c] + rest[0]] + rest[1..];
    forall i | 0 <= i < |parts| ensures '/' !in parts[i] {
      assert i > 0 ==> parts[i] == rest[i];
    }
  }

  /** So `split` is the inverse of joining, on parts without slashes. */
  lemma {:induction false} JoinThenSplit(parts: seq<string>)
    requires parts != [] && NoSlash(parts)
    ensures Split(Join(parts)) == parts
    decreases |parts|, |parts[0]|
  {
    var path, first := Join(parts), parts[0];
    if first == "" {
      if |parts| > 1 {
        assert path[0] == '/' && path[1..] == Join(parts[1..]);
        JoinThenSplit(parts[1..]);
      }
    } else {
      var shorter := [first[1..]] + parts[1..];
      assert shorter[1..] == parts[1..];
      assert path[0] == first[0] && path[1..] == Join(shorter);
      JoinThenSplit(shorter);
      assert [path[0]] + shorter[0] == first && [first] + shorter[1..] == parts;
    }
  }

  // ----- What a path leads to -----

  predicate AllEmpty(names: seq<string>) {
    forall i :: 0 <= i < |names| ==> names[i] == ""
  }

  /** The entry that looking up one more name answers, after the entry that the names before it lead to. */
  ghost predicate AnswersChild(v: Volume, upper: string -> string, cluster: nat, parent: Option<Entry>, empty: bool, name: string,
                               child: Option<Entry>)
  {
    match parent
    case Some(e) => HasChain(v, FirstCluster(e)) && child == Search(Contents(v, FirstCluster(e)), 0, name, upper(name))
    case None => if empty then HasChain(v, cluster) && child == Search(Contents(v, cluster), 0, name, upper(name)) else child == None
  }

  lemma {:induction false} ResolveChild(v: Volume, upper: string -> string, cluster: nat, names: seq<string>, name: string,
                                        current: Option<Entry>)
    requires PathOk(v, upper, cluster, names + [name]) && name != ""
    requires current.Some? ==> cluster == FirstCluster(current.value)
    ensures PathOk(v, upper, cluster, names)
    ensures AnswersChild(v, upper, cluster, Resolve(v, upper, cluster, names, current), AllEmpty(names), name,
                         Resolve(v, upper, cluster, names + [name], current))
    decreases |names|, 1
  {
    if names == [] {
      ResolveOne(v, upper, cluster, name, current);
    } else {
      assert (names + [name])[0] == names[0] && (names + [name])[1..] == names[1..] + [name];
      if names[0] == "" {
        ResolveChild(v, upper, cluster, names[1..], name, current);
        EmptyHead(names);
      } else {
        ResolveNamed(v, upper, cluster, names, name, current);
      }
    }
  }

  lemma {:induction false} ResolveNamed(v: Volume, upper: string -> string, cluster: nat, names: seq<string>, name: string,
                                        current: Option<Entry>)
    requires PathOk(v, upper, cluster, names + [name]) && name != "" && names != [] && names[0] != ""
    ensures PathOk(v, upper, cluster, names)
    ensures AnswersChild(v, upper, cluster, Resolve(v, upper, cluster, names, current), AllEmpty(names), name,
                         Resolve(v, upper, cluster, names + [name], current))
    decreases |names|, 0
  {
    assert (names + [name])[0] == names[0] && (names + [name])[1..] == names[1..] + [name];
    var found := Search(Contents(v, cluster), 0, names[0], upper(names[0]));
    if found.Some? {
      ResolveChild(v, upper, FirstCluster(found.value), names[1..], name, found);
      FoundStays(v, upper, FirstCluster(found.value), names[1..], found);
    }
  }

  /** If all names left are empty, what is found stays; so a found entry is lost at a name only. */
  lemma {:induction false} FoundStays(v: Volume, upper: string -> string, cluster: nat, names: seq<string>, current: Option<Entry>)
    requires PathOk(v, upper, cluster, names) && current.Some?
    ensures AllEmpty(names) ==> Resolve(v, upper, cluster, names, current).Some?
  {
    if AllEmpty(names) {
      ResolveKeepsFound(v, upper, cluster, names, current);
    }
  }

  lemma {:induction false} ResolveOne(v: Volume, upper: string -> string, cluster: nat, name: string, current: Option<Entry>)
    requires PathOk(v, upper, cluster, [] + [name]) && name != ""
    ensures HasChain(v, cluster)
    ensures Resolve(v, upper, cluster, [] + [name], current) == Search(Contents(v, cluster), 0, name, upper(name))
  {
    assert ([] + [name])[1..] == [];
  }

  lemma {:induction false} EmptyHead(names: seq<string>)
    requires names != [] && names[0] == ""
    ensures AllEmpty(names) <==> AllEmpty(names[1..])
  {
    assert forall i :: 0 <= i < |names[1..]| ==> names[1..][i] == names[i + 1];
    if AllEmpty(names[1..]) {
      forall i | 0 <= i < |names| ensures names[i] == "" {
        assert i > 0 ==> names[i] == names[1..][i - 1];
      }
    }
  }

  /** Once an entry is found, empty names leave it found. */
  lemma {:induction false} ResolveKeepsFound(v: Volume, upper: string -> string, cluster: nat, names: seq<string>, current: Option<Entry>)
    requires PathOk(v, upper, cluster, names) && current.Some? && AllEmpty(names)
    ensures Resolve(v, upper, cluster, names, current) == current
    decreases |names|
  {
    if names != [] {
      EmptyHead(names);
      ResolveKeepsFound(v, upper, cluster, names[1..], current);
    }
  }

  /** Looking up a path and one more name searches the directory that the path leads to; the root, if the
      path has nothing but slashes.  Empty parts never matter. */
  lemma {:induction false} LookupChild(v: Volume, upper: string -> string, path: string, name: string)
    requires name != "" && '/' !in name && PathOk(v, upper, v.rootCluster, Split(path + "/" + name))
    ensures PathOk(v, upper, v.rootCluster, Split(path))
    ensures AnswersChild(v, upper, v.rootCluster, Lookup(v, upper, path), AllEmpty(Split(path)), name,
                         Lookup(v, upper, path + "/" + name))
  {
    var parts := Split(path);
    SplitThenJoin(path);
    JoinOneMore(parts, name);
    JoinThenSplit(parts + [name]);
    assert Split(path + "/" + name) == parts + [name];
    ResolveChild(v, upper, v.rootCluster, parts, name, None);
  }

  lemma {:induction false} JoinOneMore(parts: seq<string>, name: string)
    requires parts != []
    ensures Join(parts + [name]) == Join(parts) + "/" + name
  {
    if |parts| == 1 {
      assert (parts + [name])[1..] == [name];
    } else {
      assert (parts + [name])[1..] == parts[1..] + [name];
      JoinOneMore(parts[1..], name);
    }
  }
}
