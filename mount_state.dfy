/** The persistent mount state of the SDK: a JSON document laid out as
    `hosts -> <host> -> mounts -> <repo> -> {project, lsync_config, lsync_pidfile}`,
    held by a `State` object whose methods change it in place.

    Python dicts are shared objects: `_nested_get` hands back the very dict that sits
    inside the document, and `add_mount` writes into it. Here the document is a value,
    so a write through such an alias is a `Put` at the path the alias was found at;
    a fresh `{}` handed back for a missing path is the `Fresh` lookup, and writing into
    it leaves the document as it was. */
module MountState {
  import opened Wrappers
  import opened Json

  /** The exceptions the state operations can raise. */
  datatype StateError =
    | KeyError(key: string)   // `d[key]` on a dict without `key`
    | TypeError               // indexing, `in` or `del` on something that is not a dict
    | AttributeError          // `.get` on something that is not a dict

  /** What `_nested_get` hands back: the value stored in the document (for a dict, the
      same object as the one inside the document), or a fresh `{}` attached to nothing. */
  datatype Lookup = Stored(value: Json) | Fresh {
    function Value(): Json {
      if Stored? then value else EmptyObj
    }
  }

  function MountsPath(host: string): seq<string> {
    ["hosts", host, "mounts"]
  }

  function MountPath(host: string, repo: string): seq<string> {
    MountsPath(host) + [repo]
  }

  /** The mount record `add_mount` stores for `repo`. */
  function Record(repo: string, config: Json, pid: Json): Json {
    Obj(map["project" := Str(repo), "lsync_config" := config, "lsync_pidfile" := pid])
  }

  // ---------------------------------------------------------------------------
  // A reference view of the document, independent of how the code walks it.

  /** The value stored at `path`, when every step goes through a dict holding the key. */
  function At(doc: Json, path: seq<string>): Option<Json>
    decreases |path|
  {
    if path == [] then Some(doc)
    else match doc
      case Obj(m) => if path[0] in m then At(m[path[0]], path[1..]) else None
      case _ => None
  }

  /** Walking `path`, one reaches something that is not a dict before the path ends. */
  predicate Blocked(doc: Json, path: seq<string>)
    decreases |path|
  {
    path != [] &&
    match doc
    case Obj(m) => path[0] in m && Blocked(m[path[0]], path[1..])
    case _ => true
  }

  predicate IsPrefix(p: seq<string>, q: seq<string>) {
    |p| <= |q| && q[..|p|] == p
  }

  /** The document with the value at `path` replaced by `v`. */
  function Put(doc: Json, path: seq<string>, v: Json): Json
    requires At(doc, path).Some?
    decreases |path|
  {
    if path == [] then v
    else
      var m := doc.fields;
      Obj(m[path[0] := Put(m[path[0]], path[1..], v)])
  }

  // ---------------------------------------------------------------------------
  // The operations of state.py on the document.

  /** One round of `data = data.get(key, {})`. */
  function GetStep(data: Lookup, key: string): Result<Lookup, StateError> {
    match data
    case Fresh => Ok(Fresh)
    case Stored(Obj(m)) => Ok(if key in m then Stored(m[key]) else Fresh)
    case Stored(_) => Err(AttributeError)
  }

  /** The rounds of `data.get(key, {})` for the keys in order, starting from `data`. */
  function GetSteps(data: Lookup, keys: seq<string>): Result<Lookup, StateError>
    decreases |keys|
  {
    if keys == [] then Ok(data)
    else
      var next :- GetStep(data, keys[0]);
      GetSteps(next, keys[1..])
  }

  /** `_nested_get(*keys)` on the document `doc`. */
  function NestedLookup(doc: Json, keys: seq<string>): Result<Lookup, StateError> {
    GetSteps(Stored(doc), keys)
  }

  /** `is_mounted`: the truthiness of what `get_mount` returns. */
  function IsMountedIn(doc: Json, host: string, repo: string): Result<bool, StateError> {
    var mount :- NestedLookup(doc, MountPath(host, repo));
    Ok(Truthy(mount.Value()))
  }

  /** `add_mount`: the document after `get_mounts(host)[repo] = record`. */
  function AddMountIn(doc: Json, host: string, repo: string, config: Json, pid: Json): Result<Json, StateError> {
    var mounts :- NestedLookup(doc, MountsPath(host));
    match mounts
    case Fresh => Ok(doc)
    case Stored(Obj(m)) =>
      LookupCharacterised(doc, MountsPath(host));
      Ok(Put(doc, MountsPath(host), Obj(m[repo := Record(repo, config, pid)])))
    case Stored(_) => Err(TypeError)   // item assignment on a str, list, number or None
  }

  /** `d[key]`. */
  function Index(d: Json, key: string): Result<Json, StateError> {
    match d
    case Obj(m) => if key in m then Ok(m[key]) else Err(KeyError(key))
    case _ => Err(TypeError)
  }

  /** `k` occurs in `s` at some position. */
  predicate IsSubstring(k: string, s: string)
    decreases |s|
  {
    k <= s || (s != [] && IsSubstring(k, s[1..]))
  }

  /** `key in d`: membership for a dict, substring for a str, element for a list. */
  function Contains(d: Json, key: string): Result<bool, StateError> {
    match d
    case Obj(m) => Ok(key in m)
    case Str(s) => Ok(IsSubstring(key, s))
    case Arr(xs) => Ok(Str(key) in xs)
    case _ => Err(TypeError)
  }

  /** `remove_mount`: indexes its way to the host's mounts (raising where the lookups
      would not), returns when they are empty or lack `repo`, and deletes `repo` otherwise. */
  function RemoveMountIn(doc: Json, host: string, repo: string): Result<Json, StateError> {
    var hosts :- Index(doc, "hosts");
    var h :- Index(hosts, host);
    var mounts :- Index(h, "mounts");
    if !Truthy(mounts) then Ok(doc)
    else
      var present :- Contains(mounts, repo);
      if !present then Ok(doc)
      else match mounts
        case Obj(m) =>
          assert At(doc, MountsPath(host)) == Some(mounts) by { IndexedAt(doc, host); }
          Ok(Put(doc, MountsPath(host), Obj(m - {repo})))
        case _ => Err(TypeError)   // `del` on a str, or on a list with a str index
  }

  // ---------------------------------------------------------------------------
  // The object.

  class State {
    var data: Json

    constructor (data: Json)
      ensures this.data == data
    {
      this.data := data;
    }

    /** `from_json`: the state holds the document it was given. */
    static method FromJson(json: Json) returns (s: State)
      ensures fresh(s)
      ensures s.Document() == json
    {
      s := new State(json);
    }

    /** The document `to_file` writes out. */
    function Document(): Json
      reads this
    {
      data
    }

    /** `_nested_get`: walks the keys with `.get(key, {})`. */
    method NestedGet(keys: seq<string>) returns (r: Result<Lookup, StateError>)
      ensures r == NestedLookup(data, keys)
    {
      var cur := Stored(data);
      var i := 0;
      while i < |keys|
        invariant 0 <= i <= |keys|
        invariant GetSteps(cur, keys[i..]) == NestedLookup(data, keys)
      {
        assert keys[i..][0] == keys[i] && keys[i..][1..] == keys[i + 1..];
        var next := GetStep(cur, keys[i]);
        if next.Err? {
          return Err(next.error);
        }
        cur := next.value;
        i := i + 1;
      }
      return Ok(cur);
    }

    method GetMount(host: string, repo: string) returns (r: Result<Lookup, StateError>)
      ensures r == NestedLookup(data, MountPath(host, repo))
    {
      r := NestedGet(MountPath(host, repo));
    }

    method GetMounts(host: string) returns (r: Result<Lookup, StateError>)
      ensures r == NestedLookup(data, MountsPath(host))
    {
      r := NestedGet(MountsPath(host));
    }

    method IsMounted(host: string, repo: string) returns (r: Result<bool, StateError>)
      ensures r == IsMountedIn(data, host, repo)
    {
      var mount := GetMount(host, repo);
      if mount.Err? {
        return Err(mount.error);
      }
      return Ok(Truthy(mount.value.Value()));
    }

    method AddMount(host: string, repo: string, config: Json, pid: Json) returns (r: Result<(), StateError>)
      modifies this
      ensures r.Ok? <==> AddMountIn(old(data), host, repo, config, pid).Ok?
      ensures r.Ok? ==> data == AddMountIn(old(data), host, repo, config, pid).value
      ensures r.Err? ==> data == old(data) && r.error == AddMountIn(old(data), host, repo, config, pid).error
    {
      var mount := Record(repo, config, pid);
      var mounts := GetMounts(host);
      if mounts.Err? {
        return Err(mounts.error);
      }
      match mounts.value {
        case Fresh =>
          // the record goes into a dict that nothing keeps
        case Stored(Obj(m)) =>
          LookupCharacterised(data, MountsPath(host));
          data := Put(data, MountsPath(host), Obj(m[repo := mount]));
        case Stored(_) =>
          return Err(TypeError);
      }
      return Ok(());
    }

    method RemoveMount(host: string, repo: string) returns (r: Result<(), StateError>)
      modifies this
      ensures r.Ok? <==> RemoveMountIn(old(data), host, repo).Ok?
      ensures r.Ok? ==> data == RemoveMountIn(old(data), host, repo).value
      ensures r.Err? ==> data == old(data) && r.error == RemoveMountIn(old(data), host, repo).error
    {
      var hosts := Index(data, "hosts");
      if hosts.Err? {
        return Err(hosts.error);
      }
      var h := Index(hosts.value, host);
      if h.Err? {
        return Err(h.error);
      }
      var mounts := Index(h.value, "mounts");
      if mounts.Err? {
        return Err(mounts.error);
      }
      if !Truthy(mounts.value) {
        return Ok(());
      }
      var present := Contains(mounts.value, repo);
      if present.Err? {
        return Err(present.error);
      }
      if !present.value {
        return Ok(());
      }
      match mounts.value {
        case Obj(m) =>
          IndexedAt(data, host);
          data := Put(data, MountsPath(host), Obj(m - {repo}));
        case _ =>
          return Err(TypeError);
      }
      return Ok(());
    }
  }

  // ---------------------------------------------------------------------------
  // Lemmas.

  lemma {:induction false} FreshStaysFresh(keys: seq<string>)
    ensures GetSteps(Fresh, keys) == Ok(Fresh)
    decreases |keys|
  {
    if keys != [] {
      FreshStaysFresh(keys[1..]);
    }
  }

  /** `_nested_get` against the reference view: it raises exactly when a non-dict blocks
      the path (and then with AttributeError), it hands back the stored value exactly when
      the path exists, and a fresh `{}` otherwise. */
  lemma {:induction false} LookupCharacterised(doc: Json, keys: seq<string>)
    ensures NestedLookup(doc, keys).Err? <==> Blocked(doc, keys)
    ensures NestedLookup(doc, keys).Err? ==> NestedLookup(doc, keys).error == AttributeError
    ensures NestedLookup(doc, keys).Ok? && NestedLookup(doc, keys).value.Stored? <==> At(doc, keys).Some?
    ensures At(doc, keys).Some? ==> NestedLookup(doc, keys) == Ok(Stored(At(doc, keys).value))
    ensures NestedLookup(doc, keys) == Ok(Fresh) <==> !Blocked(doc, keys) && At(doc, keys).None?
    decreases |keys|
  {
    if keys != [] {
      match doc
      case Obj(m) =>
        if keys[0] in m {
          LookupCharacterised(m[keys[0]], keys[1..]);
        } else {
          FreshStaysFresh(keys[1..]);
        }
      case _ =>
    }
  }

  /** Walking `p + s` is walking `p`, then `s` from where `p` ends. */
  lemma {:induction false} AtAppend(doc: Json, p: seq<string>, s: seq<string>)
    requires At(doc, p).Some?
    ensures At(doc, p + s) == At(At(doc, p).value, s)
    decreases |p|
  {
    if p != [] {
      assert (p + s)[0] == p[0] && (p + s)[1..] == p[1..] + s;
      AtAppend(doc.fields[p[0]], p[1..], s);
    } else {
      assert p + s == s;
    }
  }

  /** After `Put(doc, p, v)`, what lies at `p` and below it is `v`'s. */
  lemma {:induction false} PutAtBelow(doc: Json, p: seq<string>, v: Json, s: seq<string>)
    requires At(doc, p).Some?
    ensures At(Put(doc, p, v), p).Some?
    ensures At(Put(doc, p, v), p + s) == At(v, s)
    decreases |p|
  {
    if p != [] {
      assert (p + s)[0] == p[0] && (p + s)[1..] == p[1..] + s;
      PutAtBelow(doc.fields[p[0]], p[1..], v, s);
    } else {
      assert p + s == s;
    }
  }

  /** `Put(doc, p, v)` leaves alone every path that is neither on the way to `p` nor below it. */
  lemma {:induction false} PutFrame(doc: Json, p: seq<string>, v: Json, q: seq<string>)
    requires At(doc, p).Some?
    requires !IsPrefix(q, p) && !IsPrefix(p, q)
    ensures At(Put(doc, p, v), q) == At(doc, q)
    decreases |p|
  {
    assert q != [] && p != [];
    if q[0] == p[0] {
      PrefixCons(q, p);
      PrefixCons(p, q);
      PutFrame(doc.fields[p[0]], p[1..], v, q[1..]);
    }
  }

  lemma PrefixCons(a: seq<string>, b: seq<string>)
    requires a != [] && b != [] && a[0] == b[0]
    ensures IsPrefix(a, b) <==> IsPrefix(a[1..], b[1..])
  {
    if |a| <= |b| {
      assert b[..|a|] == [b[0]] + b[1..][..|a| - 1];
      assert a == [a[0]] + a[1..];
    }
  }

  lemma PrefixOfExtension(q: seq<string>, p: seq<string>, x: seq<string>)
    ensures IsPrefix(q, p) ==> IsPrefix(q, p + x)
  {
    if |q| <= |p| {
      assert (p + x)[..|q|] == p[..|q|];
    }
  }

  /** A path below the mounts of `host` that is not the record of `repo` nor below it
      goes through another key of the mounts dict. */
  lemma OtherRecord(host: string, repo: string, q: seq<string>)
    requires IsPrefix(MountsPath(host), q)
    requires !IsPrefix(q, MountPath(host, repo)) && !IsPrefix(MountPath(host, repo), q)
    ensures q == MountsPath(host) + q[3..]
    ensures |q| > 3 && q[3] != repo
  {
    var p := MountsPath(host);
    assert q == p + q[3..];
    assert IsPrefix(p, MountPath(host, repo));
    if |q| > 3 {
      assert q[..4] == MountPath(host, q[3]);
    }
  }

  /** The index chain of `remove_mount` reaches the same value as the reference view. */
  lemma IndexedAt(doc: Json, host: string)
    requires Index(doc, "hosts").Ok?
    requires Index(Index(doc, "hosts").value, host).Ok?
    requires Index(Index(Index(doc, "hosts").value, host).value, "mounts").Ok?
    ensures At(doc, MountsPath(host)) == Some(Index(Index(Index(doc, "hosts").value, host).value, "mounts").value)
  {
    UnfoldMountsPath(doc, host);
  }

  /** The reference view of the mounts path, one step at a time. */
  lemma UnfoldMountsPath(doc: Json, host: string)
    ensures At(doc, MountsPath(host)) ==
      if doc.Obj? && "hosts" in doc.fields
         && doc.fields["hosts"].Obj? && host in doc.fields["hosts"].fields
         && doc.fields["hosts"].fields[host].Obj? && "mounts" in doc.fields["hosts"].fields[host].fields
      then Some(doc.fields["hosts"].fields[host].fields["mounts"])
      else None
    ensures Blocked(doc, MountsPath(host)) <==>
      !doc.Obj? ||
      ("hosts" in doc.fields &&
        (!doc.fields["hosts"].Obj? ||
          (host in doc.fields["hosts"].fields && !doc.fields["hosts"].fields[host].Obj?)))
  {
    assert MountsPath(host) == ["hosts"] + [host, "mounts"];
    assert [host, "mounts"] == [host] + ["mounts"];
    assert ["mounts"] == ["mounts"] + [];
    StepCons(doc, "hosts", [host, "mounts"]);
    if doc.Obj? && "hosts" in doc.fields {
      var hs := doc.fields["hosts"];
      StepCons(hs, host, ["mounts"]);
      if hs.Obj? && host in hs.fields {
        StepCons(hs.fields[host], "mounts", []);
      }
    }
  }

  /** One step of the reference view. */
  lemma StepCons(doc: Json, k: string, rest: seq<string>)
    ensures At(doc, [k] + rest) == if doc.Obj? && k in doc.fields then At(doc.fields[k], rest) else None
    ensures Blocked(doc, [k] + rest) <==> !doc.Obj? || (k in doc.fields && Blocked(doc.fields[k], rest))
  {
    assert ([k] + rest)[0] == k && ([k] + rest)[1..] == rest;
  }

  /** Where the reference view finds the host's mounts, `remove_mount` finds them too;
      where it finds no mounts and nothing blocks the way, `remove_mount` raises KeyError. */
  lemma IndexChain(doc: Json, host: string)
    ensures At(doc, MountsPath(host)).Some? ==>
      && Index(doc, "hosts").Ok?
      && Index(Index(doc, "hosts").value, host).Ok?
      && Index(Index(Index(doc, "hosts").value, host).value, "mounts") == Ok(At(doc, MountsPath(host)).value)
    ensures At(doc, MountsPath(host)).None? && !Blocked(doc, MountsPath(host)) ==>
      forall repo :: RemoveMountIn(doc, host, repo).Err? && RemoveMountIn(doc, host, repo).error.KeyError?
  {
    UnfoldMountsPath(doc, host);
  }

  /** `get_mounts` for a host the document does not know returns an empty mapping, and
      does not raise, as long as `hosts` is a dict or missing. */
  lemma GetMountsUnknownHost(doc: Json, host: string)
    requires doc.Obj?
    requires "hosts" !in doc.fields || (doc.fields["hosts"].Obj? && host !in doc.fields["hosts"].fields)
    ensures NestedLookup(doc, MountsPath(host)) == Ok(Fresh)
    ensures NestedLookup(doc, MountsPath(host)).value.Value() == Obj(map[])
  {
    LookupCharacterised(doc, MountsPath(host));
  }

  /** `is_mounted(host, repo)` holds exactly when a truthy record is stored for `repo`,
      and raises exactly when a non-dict blocks the way. */
  lemma IsMountedIff(doc: Json, host: string, repo: string)
    ensures IsMountedIn(doc, host, repo) == Ok(true) <==>
              At(doc, MountPath(host, repo)).Some? && Truthy(At(doc, MountPath(host, repo)).value)
    ensures IsMountedIn(doc, host, repo).Err? <==> Blocked(doc, MountPath(host, repo))
  {
    LookupCharacterised(doc, MountPath(host, repo));
  }

  /** No repo is mounted on a host the document does not know. */
  lemma UnknownHostNotMounted(doc: Json, host: string, repo: string)
    requires doc.Obj?
    requires "hosts" !in doc.fields || (doc.fields["hosts"].Obj? && host !in doc.fields["hosts"].fields)
    ensures IsMountedIn(doc, host, repo) == Ok(false)
  {
    LookupCharacterised(doc, MountPath(host, repo));
  }

  /** When the host's mounts dict exists, `add_mount` stores the record under `repo`
      (replacing any earlier one), keeps the host's other records, and `repo` then reads
      as mounted. */
  lemma AddMountStores(doc: Json, host: string, repo: string, config: Json, pid: Json)
    requires At(doc, MountsPath(host)).Some? && At(doc, MountsPath(host)).value.Obj?
    ensures AddMountIn(doc, host, repo, config, pid).Ok?
    ensures var d' := AddMountIn(doc, host, repo, config, pid).value;
            var m := At(doc, MountsPath(host)).value.fields;
            && At(d', MountsPath(host)) == Some(Obj(m[repo := Record(repo, config, pid)]))
            && At(d', MountPath(host, repo)) == Some(Record(repo, config, pid))
            && IsMountedIn(d', host, repo) == Ok(true)
  {
    var m := At(doc, MountsPath(host)).value.fields;
    var v := Obj(m[repo := Record(repo, config, pid)]);
    LookupCharacterised(doc, MountsPath(host));
    var d' := Put(doc, MountsPath(host), v);
    PutAtBelow(doc, MountsPath(host), v, []);
    assert MountsPath(host) + [] == MountsPath(host);
    PutAtBelow(doc, MountsPath(host), v, [repo]);
    assert At(v, [repo]) == Some(Record(repo, config, pid)) by {
      assert At(Record(repo, config, pid), []) == Some(Record(repo, config, pid));
    }
    assert "project" in Record(repo, config, pid).fields;
    IsMountedIff(d', host, repo);
  }

  /** `add_mount` changes nothing but the record of `repo` under the host's mounts (and
      the dicts on the way to it): every other path reads as before. */
  lemma AddMountFrame(doc: Json, host: string, repo: string, config: Json, pid: Json, q: seq<string>)
    requires AddMountIn(doc, host, repo, config, pid).Ok?
    requires !IsPrefix(q, MountPath(host, repo)) && !IsPrefix(MountPath(host, repo), q)
    ensures At(AddMountIn(doc, host, repo, config, pid).value, q) == At(doc, q)
  {
    var p := MountsPath(host);
    LookupCharacterised(doc, p);
    if At(doc, p).Some? && At(doc, p).value.Obj? {
      var m := At(doc, p).value.fields;
      var v := Obj(m[repo := Record(repo, config, pid)]);
      if IsPrefix(p, q) {
        OtherRecord(host, repo, q);
        var s := q[3..];
        PutAtBelow(doc, p, v, s);
        AtAppend(doc, p, s);
      } else {
        PrefixOfExtension(q, p, [repo]);
        PutFrame(doc, p, v, q);
      }
    }
  }

  /** When the host's mounts dict does not exist, `add_mount` writes into a detached `{}`:
      the document is unchanged and `repo` still reads as not mounted. */
  lemma AddMountIntoDetached(doc: Json, host: string, repo: string, config: Json, pid: Json)
    requires !Blocked(doc, MountsPath(host)) && At(doc, MountsPath(host)).None?
    ensures AddMountIn(doc, host, repo, config, pid) == Ok(doc)
    ensures IsMountedIn(doc, host, repo) == Ok(false)
  {
    LookupCharacterised(doc, MountsPath(host));
    LookupCharacterised(doc, MountPath(host, repo));
    assert At(doc, MountPath(host, repo)).None? by {
      if At(doc, MountPath(host, repo)).Some? {
        AtPrefixExists(doc, MountsPath(host), [repo]);
      }
    }
    assert !Blocked(doc, MountPath(host, repo)) by {
      if Blocked(doc, MountPath(host, repo)) {
        BlockedExtends(doc, MountsPath(host), [repo]);
      }
    }
  }

  lemma {:induction false} AtPrefixExists(doc: Json, p: seq<string>, s: seq<string>)
    requires At(doc, p + s).Some?
    ensures At(doc, p).Some?
    decreases |p|
  {
    if p != [] {
      assert (p + s)[0] == p[0] && (p + s)[1..] == p[1..] + s;
      AtPrefixExists(doc.fields[p[0]], p[1..], s);
    }
  }

  /** A path that stops short of a missing key is not blocked beyond it either. */
  lemma {:induction false} BlockedExtends(doc: Json, p: seq<string>, s: seq<string>)
    requires Blocked(doc, p + s) && At(doc, p).None?
    ensures Blocked(doc, p)
    decreases |p|
  {
    assert p != [];
    assert (p + s)[0] == p[0] && (p + s)[1..] == p[1..] + s;
    match doc
    case Obj(m) =>
      BlockedExtends(m[p[0]], p[1..], s);
    case _ =>
  }

  /** `add_mount` raises exactly where the lookup does, or when the mounts value is not a dict. */
  lemma AddMountErrors(doc: Json, host: string, repo: string, config: Json, pid: Json)
    ensures Blocked(doc, MountsPath(host)) ==>
              AddMountIn(doc, host, repo, config, pid) == Err(AttributeError)
    ensures At(doc, MountsPath(host)).Some? && !At(doc, MountsPath(host)).value.Obj? ==>
              AddMountIn(doc, host, repo, config, pid) == Err(TypeError)
  {
    LookupCharacterised(doc, MountsPath(host));
  }

  /** When the host's mounts dict exists, `remove_mount` deletes exactly `repo` from it,
      changes nothing when `repo` is absent (in particular when the dict is empty), and
      `repo` then reads as not mounted. */
  lemma RemoveMountDeletes(doc: Json, host: string, repo: string)
    requires At(doc, MountsPath(host)).Some? && At(doc, MountsPath(host)).value.Obj?
    ensures RemoveMountIn(doc, host, repo).Ok?
    ensures var d' := RemoveMountIn(doc, host, repo).value;
            var m := At(doc, MountsPath(host)).value.fields;
            && At(d', MountsPath(host)) == Some(Obj(m - {repo}))
            && (repo !in m ==> d' == doc)
            && IsMountedIn(d', host, repo) == Ok(false)
  {
    var p := MountsPath(host);
    var m := At(doc, p).value.fields;
    IndexChain(doc, host);
    var d' := RemoveMountIn(doc, host, repo).value;
    if repo in m {
      PutAtBelow(doc, p, Obj(m - {repo}), []);
      assert p + [] == p;
    } else {
      assert m - {repo} == m;
    }
    assert At(d', p) == Some(Obj(m - {repo}));
    AtAppend(d', p, [repo]);
    BlockedThrough(d', p, [repo]);
    LookupCharacterised(d', MountPath(host, repo));
  }

  /** Once the path exists up to `p`, it is blocked further on exactly when it is blocked
      from the value found at `p`. */
  lemma {:induction false} BlockedThrough(doc: Json, p: seq<string>, s: seq<string>)
    requires At(doc, p).Some?
    ensures Blocked(doc, p + s) <==> Blocked(At(doc, p).value, s)
    decreases |p|
  {
    if p == [] {
      assert p + s == s;
    } else {
      assert (p + s)[0] == p[0] && (p + s)[1..] == p[1..] + s;
      BlockedThrough(doc.fields[p[0]], p[1..], s);
    }
  }

  /** `remove_mount` changes nothing but the record of `repo` under the host's mounts. */
  lemma RemoveMountFrame(doc: Json, host: string, repo: string, q: seq<string>)
    requires RemoveMountIn(doc, host, repo).Ok?
    requires !IsPrefix(q, MountPath(host, repo)) && !IsPrefix(MountPath(host, repo), q)
    ensures At(RemoveMountIn(doc, host, repo).value, q) == At(doc, q)
  {
    var p := MountsPath(host);
    var d' := RemoveMountIn(doc, host, repo).value;
    if d' != doc {
      IndexedAt(doc, host);
      var m := At(doc, p).value.fields;
      var v := Obj(m - {repo});
      assert d' == Put(doc, p, v);
      if IsPrefix(p, q) {
        OtherRecord(host, repo, q);
        var s := q[3..];
        PutAtBelow(doc, p, v, s);
        AtAppend(doc, p, s);
      } else {
        PrefixOfExtension(q, p, [repo]);
        PutFrame(doc, p, v, q);
      }
    }
  }

  /** Whatever the document, a `remove_mount` that returns leaves `repo` not mounted: either
      it was deleted, or it was never there, or looking it up raises. */
  lemma RemoveMountUnmounts(doc: Json, host: string, repo: string)
    requires RemoveMountIn(doc, host, repo).Ok?
    ensures IsMountedIn(RemoveMountIn(doc, host, repo).value, host, repo) != Ok(true)
  {
    IndexedAt(doc, host);
    var p := MountsPath(host);
    var mounts := At(doc, p).value;
    if mounts.Obj? {
      RemoveMountDeletes(doc, host, repo);
    } else {
      assert RemoveMountIn(doc, host, repo).value == doc;
      BlockedThrough(doc, p, [repo]);
      IsMountedIff(doc, host, repo);
    }
  }

  /** Unlike the lookups, `remove_mount` raises KeyError when `hosts`, the host or its
      `mounts` is missing, even though `get_mounts` returns `{}` there. */
  lemma RemoveMountMissingRaises(doc: Json, host: string, repo: string)
    requires !Blocked(doc, MountsPath(host)) && At(doc, MountsPath(host)).None?
    requires doc.Obj?
    ensures RemoveMountIn(doc, host, repo).Err? && RemoveMountIn(doc, host, repo).error.KeyError?
    ensures NestedLookup(doc, MountsPath(host)) == Ok(Fresh)
  {
    LookupCharacterised(doc, MountsPath(host));
    IndexChain(doc, host);
  }
}
