/** Names and paths of the file system server (fs/fs.c): dir_lookup, walk_path and its second version
    get_file, file_create and file_remove.

    A node stands for a struct File. The struct Files of a directory lie in its blocks, FILE2BLK to a
    block; an unused one has an empty name. Directories have no missing blocks here. */
module Paths {
  import opened Errors
  import FsBlocks
  import opened Options

  const MAXNAMELEN: nat := 128

  datatype Entry = Entry(name: string, file: nat)
  datatype Node = Node(isDir: bool, entries: seq<Entry>)

  type Tree = map<nat, Node>

  /** Every entry is a node, and directories consist of whole blocks. */
  ghost predicate Ok(t: Tree, root: nat)
  {
    root in t && forall d :: d in t ==>
      |t[d].entries| % FsBlocks.FILE2BLK == 0 && forall i :: 0 <= i < |t[d].entries| ==> t[d].entries[i].file in t
  }

  /* ---- Lookup ---- */

  /** The first entry with a name. */
  function Find(s: seq<Entry>, name: string): (r: Option<nat>)
    ensures r.Some? ==> r.value < |s| && s[r.value].name == name && forall i :: 0 <= i < r.value ==> s[i].name != name
    ensures r == None ==> forall i :: 0 <= i < |s| ==> s[i].name != name
  {
    if s == [] then None
    else if s[0].name == name then Some(0)
    else match Find(s[1..], name) case None => None case Some(i) => Some(i + 1)
  }

  function Lookup(t: Tree, d: nat, name: string): Option<nat>
    requires d in t
  {
    match Find(t[d].entries, name) case None => None case Some(i) => Some(t[d].entries[i].file)
  }

  /** dir_lookup and get_file_dir */
  method DirLookup(t: Tree, ghost root: nat, d: nat, name: string) returns (r: int, file: nat)
    requires Ok(t, root) && d in t
    ensures r == (if Lookup(t, d, name).Some? then 0 else -E_NOT_FOUND)
    ensures r == 0 ==> Some(file) == Lookup(t, d, name) && file in t
  {
    var s := t[d].entries;
    var nblock := |s| / FsBlocks.FILE2BLK;
    file := d;
    for i := 0 to nblock
      invariant forall k :: 0 <= k < i * FsBlocks.FILE2BLK ==> s[k].name != name
    {
      for j := 0 to FsBlocks.FILE2BLK
        invariant forall k :: 0 <= k < i * FsBlocks.FILE2BLK + j ==> s[k].name != name
      {
        if s[i * FsBlocks.FILE2BLK + j].name == name {
          assert Find(s, name) == Some(i * FsBlocks.FILE2BLK + j);
          return 0, s[i * FsBlocks.FILE2BLK + j].file;
        }
      }
    }
    return -E_NOT_FOUND, d;
  }

  /* ---- Components of a path ---- */

  /** The pieces between slashes, empty ones included. */
  function Split(p: string): (r: seq<string>)
    ensures r != []
  {
    if p == "" then [""]
    else if p[0] == '/' then [""] + Split(p[1..])
    else var r := Split(p[1..]); [[p[0]] + r[0]] + r[1..]
  }

  function NonEmpty(s: seq<string>): (r: seq<string>)
    ensures forall i :: 0 <= i < |r| ==> r[i] != ""
  {
    if s == [] then [] else if s[0] == "" then NonEmpty(s[1..]) else [s[0]] + NonEmpty(s[1..])
  }

  /** The names that a path goes through. */
  function Components(p: string): seq<string> { NonEmpty(Split(p)) }

  lemma SplitAtSlash(p: string, n: nat)
    requires n <= |p| && (forall i :: 0 <= i < n ==> p[i] != '/') && (n == |p| || p[n] == '/')
    ensures Split(p) == [p[..n]] + if n == |p| then [] else Split(p[n + 1..])
    decreases n
  {
    if n > 0 {
      SplitAtSlash(p[1..], n - 1);
      assert p[..n] == [p[0]] + p[1..][..n - 1];
      if n < |p| {
        assert p[1..][n..] == p[n + 1..];
      }
    }
  }

  lemma SlashIsSkipped(p: string)
    requires p != "" && p[0] == '/'
    ensures Components(p) == Components(p[1..])
  {
    assert ([""] + Split(p[1..]))[1..] == Split(p[1..]);
  }

  /** The first component of a path that does not start with a slash, and the rest. */
  lemma FirstComponent(p: string, n: nat)
    requires 0 < n <= |p| && (forall i :: 0 <= i < n ==> p[i] != '/') && (n == |p| || p[n] == '/')
    ensures Components(p) == [p[..n]] + Components(p[n..])
  {
    SplitAtSlash(p, n);
    if n < |p| {
      SlashIsSkipped(p[n..]);
      assert p[n..][1..] == p[n + 1..];
      assert ([p[..n]] + Split(p[n + 1..]))[1..] == Split(p[n + 1..]);
    } else {
      assert [p[..n]][1..] == [];
      assert p[n..] == "";
      assert [""][1..] == [];
    }
  }

  /* ---- Walking ---- */

  /** Follow a list of names from directory to directory. */
  function Follow(t: Tree, file: nat, names: seq<string>): Option<nat>
    requires file in t
    decreases |names|
  {
    if names == [] then Some(file)
    else if !t[file].isDir then None
    else
      match Lookup(t, file, names[0])
      case None => None
      case Some(g) => if g in t then Follow(t, g, names[1..]) else None
  }

  /** What walk_path reports: the file with its directory; or a directory and a name that it lacks; or an
      error. */
  datatype Walked = Found(dir: Option<nat>, file: nat) | Missing(parent: nat, last: string) | NotFound | BadPath

  /** A walk that refuses names longer than limit. */
  function Resolve(t: Tree, dir: Option<nat>, file: nat, names: seq<string>, limit: nat): Walked
    requires file in t
    decreases |names|
  {
    if names == [] then Found(dir, file)
    else if |names[0]| > limit then BadPath
    else if !t[file].isDir then NotFound
    else
      match Lookup(t, file, names[0])
      case None => if |names| == 1 then Missing(file, names[0]) else NotFound
      case Some(g) => if g in t then Resolve(t, Some(file), g, names[1..], limit) else NotFound
  }

  predicate ShortNames(names: seq<string>) { forall i :: 0 <= i < |names| ==> |names[i]| < MAXNAMELEN }

  /** The longest names that the two walks let through. get_file makes its test before storing a byte, so
      it lets a name of MAXNAMELEN bytes through, for which its buffer has no room left. */
  const WALK_LIMIT: nat := MAXNAMELEN - 1
  const GET_LIMIT: nat := MAXNAMELEN

  /** For short names a walk finds what following the names finds. */
  lemma {:induction false} ResolveIsFollow(t: Tree, dir: Option<nat>, file: nat, names: seq<string>, limit: nat)
    requires file in t && ShortNames(names) && limit >= WALK_LIMIT
    ensures var w := Resolve(t, dir, file, names, limit);
            (w.Found? <==> Follow(t, file, names).Some?) && (w.Found? ==> Follow(t, file, names) == Some(w.file))
    decreases |names|
  {
    if names != [] && t[file].isDir {
      match Lookup(t, file, names[0])
      case None =>
      case Some(g) => if g in t { ResolveIsFollow(t, Some(file), g, names[1..], limit); }
    }
  }

  /** walk_path reports a directory and a last name exactly when only the last name is missing. */
  lemma {:induction false} MissingIsLast(t: Tree, dir: Option<nat>, file: nat, names: seq<string>, root: nat)
    requires Ok(t, root) && file in t && ShortNames(names)
    ensures Resolve(t, dir, file, names, WALK_LIMIT).Missing? <==>
              names != [] && (var d := Follow(t, file, names[..|names| - 1]);
                              d.Some? && d.value in t && t[d.value].isDir
                                && Lookup(t, d.value, names[|names| - 1]) == None)
    ensures Resolve(t, dir, file, names, WALK_LIMIT).Missing? ==>
              Resolve(t, dir, file, names, WALK_LIMIT)
              == Missing(Follow(t, file, names[..|names| - 1]).value, names[|names| - 1])
    decreases |names|
  {
    if names != [] && t[file].isDir {
      match Lookup(t, file, names[0])
      case None =>
        if |names| > 1 { assert names[..|names| - 1][0] == names[0]; }
      case Some(g) =>
        LookupInTree(t, root, file, names[0]);
        MissingIsLast(t, Some(file), g, names[1..], root);
        if |names| > 1 {
          assert names[..|names| - 1][1..] == names[1..][..|names| - 2];
        }
    }
  }

  /** walk_path refuses the path exactly when it comes to a name that is too long: the names before it are short enough
      and lead somewhere. */
  lemma {:induction false} BadPathIf(t: Tree, dir: Option<nat>, file: nat, names: seq<string>, limit: nat, root: nat)
    requires Ok(t, root) && file in t
    ensures Resolve(t, dir, file, names, limit).BadPath? <==> exists k: nat :: TooLongAt(t, file, names, limit, k)
    decreases |names|
  {
    hide Ok, Lookup;
    if names != [] {
      if |names[0]| > limit {
        assert names[..0] == [];
        assert TooLongAt(t, file, names, limit, 0);
      } else {
        if t[file].isDir && Lookup(t, file, names[0]).Some? {
          LookupInTree(t, root, file, names[0]);
          BadPathIf(t, Some(file), Lookup(t, file, names[0]).value, names[1..], limit, root);
        }
        TooLongLater(t, file, names, limit);
      }
    }
  }

  /** Name k is too long, and the names before it are not and can be followed. */
  predicate TooLongAt(t: Tree, file: nat, names: seq<string>, limit: nat, k: nat)
    requires file in t
  {
    && k < |names| && |names[k]| > limit && (forall i :: 0 <= i < k ==> |names[i]| <= limit)
    && Follow(t, file, names[..k]).Some?
  }

  lemma TooLongLater(t: Tree, file: nat, names: seq<string>, limit: nat)
    requires file in t && names != [] && |names[0]| <= limit
    ensures (exists k: nat :: TooLongAt(t, file, names, limit, k)) <==>
              && t[file].isDir && Lookup(t, file, names[0]).Some? && Lookup(t, file, names[0]).value in t
              && exists k: nat :: TooLongAt(t, Lookup(t, file, names[0]).value, names[1..], limit, k)
  {
    hide Lookup;
    if k: nat :| TooLongAt(t, file, names, limit, k) {
      PrefixTail(names, k);
      var g := Lookup(t, file, names[0]).value;
      assert TooLongAt(t, g, names[1..], limit, k - 1);
    }
    if t[file].isDir && Lookup(t, file, names[0]).Some? && Lookup(t, file, names[0]).value in t {
      var g := Lookup(t, file, names[0]).value;
      if k: nat :| TooLongAt(t, g, names[1..], limit, k) {
        PrefixTail(names, k + 1);
        assert TooLongAt(t, file, names, limit, k + 1);
      }
    }
  }

  lemma PrefixTail(names: seq<string>, k: nat)
    requires 0 < k <= |names|
    ensures names[..k] != [] && names[..k][0] == names[0] && names[..k][1..] == names[1..][..k - 1]
  {
  }

  lemma LookupInTree(t: Tree, root: nat, d: nat, name: string)
    requires Ok(t, root) && d in t && Lookup(t, d, name).Some?
    ensures Lookup(t, d, name).value in t
  {
  }

  /** The results that walk_path delivers through its return value and its three pointers. */
  predicate Reports(w: Walked, r: int, pdir: Option<nat>, pfile: Option<nat>, lastelem: Option<string>)
  {
    match w
    case Found(d, f) => r == 0 && pdir == d && pfile == Some(f) && lastelem == None
    case Missing(d, last) => r == -E_NOT_FOUND && pdir == Some(d) && pfile == None && lastelem == Some(last)
    case NotFound => r == -E_NOT_FOUND && pdir == None && pfile == None && lastelem == None
    case BadPath => r == -E_BAD_PATH && pdir == None && pfile == None && lastelem == None
  }

  /** skip_slash, on a position in the path */
  method SkipSlash(path: string, i: nat) returns (j: nat)
    requires i <= |path|
    ensures i <= j <= |path| && (j < |path| ==> path[j] != '/')
    ensures Components(path[j..]) == Components(path[i..])
  {
    j := i;
    while j < |path| && path[j] == '/'
      invariant i <= j <= |path| && Components(path[j..]) == Components(path[i..])
    {
      SlashIsSkipped(path[j..]);
      assert path[j..][1..] == path[j + 1..];
      j := j + 1;
    }
  }

  /** walk_path */
  method WalkPath(t: Tree, root: nat, path: string)
    returns (r: int, pdir: Option<nat>, pfile: Option<nat>, lastelem: Option<string>)
    requires Ok(t, root)
    ensures Reports(Resolve(t, None, root, Components(path), WALK_LIMIT), r, pdir, pfile, lastelem)
  {
    hide Components;
    var i := SkipSlash(path, 0);
    assert path[0..] == path;
    var file, dir := root, None;
    pdir, pfile, lastelem := None, None, None;
    while i < |path|
      invariant i <= |path| && file in t && (i < |path| ==> path[i] != '/')
      invariant pdir == None && pfile == None && lastelem == None
      invariant Resolve(t, None, root, Components(path), WALK_LIMIT) ==
                  Resolve(t, dir, file, Components(path[i..]), WALK_LIMIT)
      decreases |path| - i
    {
      dir := Some(file);
      var p := i;
      while i < |path| && path[i] != '/'
        invariant p <= i <= |path| && forall k :: p <= k < i ==> path[k] != '/'
      {
        i := i + 1;
      }
      var name := path[p..i];
      FirstComponent(path[p..], i - p);
      assert path[p..][..i - p] == name && path[p..][i - p..] == path[i..];
      assert Components(path[p..]) == [name] + Components(path[i..]);
      if i - p >= MAXNAMELEN {
        return -E_BAD_PATH, None, None, None;
      }
      i := SkipSlash(path, i);
      if !t[dir.value].isDir {
        return -E_NOT_FOUND, None, None, None;
      }
      RestOfPath(path, i);
      r, file := DirLookup(t, root, dir.value, name);
      if r < 0 {
        if i == |path| {
          pdir := dir;
          lastelem := Some(name);
        }
        return;
      }
      assert ([name] + Components(path[i..]))[1..] == Components(path[i..]);
    }
    assert path[i..] == "";
    RestOfPath(path, i);
    return 0, dir, Some(file), None;
  }

  /** After skipping slashes, something is left exactly if there is another component. */
  lemma RestOfPath(path: string, i: nat)
    requires i <= |path| && (i < |path| ==> path[i] != '/')
    ensures Components(path[i..]) == [] <==> i == |path|
  {
    if i < |path| {
      var n := NameEnd(path[i..], 0);
      FirstComponent(path[i..], n);
    } else {
      assert path[i..] == "";
      assert [""][1..] == [];
    }
  }

  function NameEnd(p: string, i: nat): (n: nat)
    requires i <= |p|
    ensures i <= n <= |p| && (n == |p| || p[n] == '/') && forall k :: i <= k < n ==> p[k] != '/'
    ensures i < |p| && p[i] != '/' ==> n > i
    decreases |p| - i
  {
    if i == |p| || p[i] == '/' then i else NameEnd(p, i + 1)
  }

  /* ---- get_file ---- */

  /** A path in normal form: a slash before each component, and no other. */
  predicate Normal(p: string)
  {
    p == "" || (p[0] == '/' && |p| > 1 && p[1] != '/' && Normal(p[NameEnd(p, 1)..]))
  }

  /** The inner loop of get_file: copy a component, unless it is too long. */
  method TakeName(path: string, i: nat) returns (ok: bool, name: string, j: nat)
    requires i <= |path|
    ensures ok <==> NameEnd(path, i) - i <= GET_LIMIT
    ensures ok ==> j == NameEnd(path, i) && name == path[i..j]
  {
    j, name := i, "";
    while j < |path| && path[j] != '/'
      invariant i <= j <= |path| && name == path[i..j] && |name| <= MAXNAMELEN
      invariant NameEnd(path, i) == NameEnd(path, j)
    {
      if |name| == MAXNAMELEN {
        return false, name, j;
      }
      name := name + [path[j]];
      j := j + 1;
    }
    ok := true;
  }

  /** get_file, which skips at most one slash before each component. */
  method GetFile(t: Tree, root: nat, path: string) returns (r: int, file: nat)
    requires Ok(t, root) && Normal(path)
    ensures var w := Resolve(t, None, root, Components(path), GET_LIMIT);
            && (r == 0 <==> w.Found?) && (r == 0 ==> file == w.file)
            && (r == -E_BAD_PATH <==> w.BadPath?)
            && (r == -E_NOT_FOUND <==> w.NotFound? || w.Missing?)
  {
    hide Components, Normal, NameEnd;
    file := root;
    var i := 0;
    ghost var dir := None;
    assert path[0..] == path;
    while i < |path|
      invariant i <= |path| && file in t && Normal(path[i..])
      invariant Resolve(t, None, root, Components(path), GET_LIMIT) ==
                  Resolve(t, dir, file, Components(path[i..]), GET_LIMIT)
      decreases |path| - i
    {
      var d := file;
      NormalAt(path, i);
      if path[i] == '/' {
        i := i + 1;
      }
      var ok, name, j := TakeName(path, i);
      if !ok {
        return -E_BAD_PATH, d;
      }
      i := j;
      if !t[d].isDir {
        return -E_NOT_FOUND, d;
      }
      r, file := DirLookup(t, root, d, name);
      dir := Some(d);
      if r < 0 {
        return;
      }
      assert ([name] + Components(path[i..]))[1..] == Components(path[i..]);
    }
    assert path[i..] == "";
    NothingLeft();
    return 0, file;
  }

  lemma NormalAt(path: string, i: nat)
    requires i < |path| && Normal(path[i..])
    ensures path[i] == '/'
    ensures var n := NameEnd(path, i + 1);
            Components(path[i..]) == [path[i + 1..n]] + Components(path[n..]) && Normal(path[n..])
  {
    hide Components, Normal, NameEnd;
    var rest := path[i..];
    NormalStep(rest);
    NameEndShift(path, i, i + 1);
    var n := NameEnd(path, i + 1);
    assert rest[1..n - i] == path[i + 1..n] && rest[n - i..] == path[n..];
  }

  lemma NameEndShift(path: string, i: nat, k: nat)
    requires i <= k <= |path|
    ensures NameEnd(path[i..], k - i) == NameEnd(path, k) - i
    decreases |path| - k
  {
    if k < |path| && path[k] != '/' {
      NameEndShift(path, i, k + 1);
    }
  }

  lemma NothingLeft()
    ensures Components("") == []
  {
    assert [""][1..] == [];
  }

  /** The first component of a path in normal form is what lies between its first two slashes. */
  lemma NormalStep(p: string)
    requires Normal(p) && p != ""
    ensures p[0] == '/' && |p| > 1 && p[1] != '/'
    ensures var n := NameEnd(p, 1);
            Components(p) == [p[1..n]] + Components(p[n..]) && Normal(p[n..])
  {
    hide Components, Normal;
    var n := NameEnd(p, 1);
    NormalParts(p);
    SlashIsSkipped(p);
    var q := p[1..];
    assert forall k :: 0 <= k < n - 1 ==> q[k] == p[k + 1];
    FirstComponent(q, n - 1);
    assert q[..n - 1] == p[1..n] && q[n - 1..] == p[n..];
  }

  lemma NormalParts(p: string)
    requires Normal(p) && p != ""
    ensures p[0] == '/' && |p| > 1 && p[1] != '/' && Normal(p[NameEnd(p, 1)..])
  {
  }

  /** The two walks part at names of exactly MAXNAMELEN bytes: walk_path finds a file exactly if get_file
      finds it and no name on the way has that length; then it is the same file. */
  lemma GetFileAgrees(t: Tree, root: nat, path: string)
    requires Ok(t, root)
    ensures var w, g := Resolve(t, None, root, Components(path), WALK_LIMIT),
            Resolve(t, None, root, Components(path), GET_LIMIT);
            (w.Found? <==> g.Found? && ShortNames(Components(path))) && (w.Found? ==> g == w)
  {
    LimitsDiffer(t, None, root, Components(path));
  }

  lemma {:induction false} LimitsDiffer(t: Tree, dir: Option<nat>, file: nat, names: seq<string>)
    requires file in t
    ensures var w, g := Resolve(t, dir, file, names, WALK_LIMIT), Resolve(t, dir, file, names, GET_LIMIT);
            (w.Found? <==> g.Found? && ShortNames(names)) && (w.Found? ==> g == w)
    decreases |names|
  {
    if names != [] {
      assert ShortNames(names) <==> |names[0]| < MAXNAMELEN && ShortNames(names[1..]);
      match Lookup(t, file, names[0])
      case None =>
      case Some(g) => if g in t { LimitsDiffer(t, Some(file), g, names[1..]); }
    }
  }

  /** The bytes that strcmp sees from the start of memory on: up to the first zero byte. */
  function CString(bytes: string): (r: string)
    ensures |r| <= |bytes| && r == bytes[..|r|] && (|r| < |bytes| ==> bytes[|r|] == '\0')
    ensures forall i :: 0 <= i < |r| ==> r[i] != '\0'
  {
    if bytes == "" || bytes[0] == '\0' then "" else [bytes[0]] + CString(bytes[1..])
  }

  /** When a name has MAXNAMELEN bytes: f_name holds that many, so there is no zero byte in it, and strcmp
      runs on into f_size; the first byte of f_size must be zero. */
  lemma LongestName(fname: string, rest: string)
    requires |fname| == MAXNAMELEN
    ensures |CString(fname + rest)| == MAXNAMELEN <==>
              (forall i :: 0 <= i < MAXNAMELEN ==> fname[i] != '\0') && (rest == "" || rest[0] == '\0')
  {
    var r := CString(fname + rest);
    if |r| == MAXNAMELEN {
      assert forall i :: 0 <= i < MAXNAMELEN ==> r[i] == fname[i];
    } else if |r| < MAXNAMELEN {
      assert fname[|r|] == '\0';
    } else {
      assert r[MAXNAMELEN] == rest[0];
    }
  }

  /** Such an input exists: a name of exactly MAXNAMELEN bytes in the root directory. */
  lemma LongestNameDiffers(t: Tree, root: nat, name: string)
    requires Ok(t, root) && t[root].isDir && |name| == MAXNAMELEN && Lookup(t, root, name).Some?
    ensures Resolve(t, None, root, [name], WALK_LIMIT) == BadPath
    ensures Resolve(t, None, root, [name], GET_LIMIT) == Found(Some(root), Lookup(t, root, name).value)
  {
    LookupInTree(t, root, root, name);
    assert [name][1..] == [];
  }

  /** file_create, which goes by walk_path, gives no such name. */
  lemma {:induction false} CreatedIsShort(t: Tree, dir: Option<nat>, file: nat, names: seq<string>)
    requires file in t && Resolve(t, dir, file, names, WALK_LIMIT).Missing?
    ensures |Resolve(t, dir, file, names, WALK_LIMIT).last| < MAXNAMELEN
    decreases |names|
  {
    match Lookup(t, file, names[0])
    case None =>
    case Some(g) => CreatedIsShort(t, Some(file), g, names[1..]);
  }

  /* ---- Creating and removing names ---- */

  /** Give entry i of directory d a name. */
  function Rename(t: Tree, d: nat, i: nat, name: string): Tree
    requires d in t && i < |t[d].entries|
  {
    t[d := t[d].(entries := t[d].entries[i := t[d].entries[i].(name := name)])]
  }

  /** A new block of unused entries at the end of directory d, for the struct Files in news. */
  function Extend(t: Tree, d: nat, news: seq<nat>): Tree
    requires d in t
  {
    var blank := map f | f in news :: Node(false, []);
    (blank + t)[d := t[d].(entries := t[d].entries + seq(|news|, i requires 0 <= i < |news| => Entry("", news[i])))]
  }

  /** file_create as a whole: the first unused entry of the directory gets the name. */
  function Created(t: Tree, d: nat, name: string, news: seq<nat>): (r: (Tree, nat))
    requires d in t && |news| == FsBlocks.FILE2BLK
  {
    match Find(t[d].entries, "")
    case Some(i) => (Rename(t, d, i, name), t[d].entries[i].file)
    case None => (Rename(Extend(t, d, news), d, |t[d].entries|, name), news[0])
  }

  /** The new name is found in its directory, and nothing else is found differently. */
  lemma CreatedLookup(t: Tree, d: nat, name: string, news: seq<nat>, x: nat, other: string)
    requires d in t && |news| == FsBlocks.FILE2BLK && name != "" && Lookup(t, d, name) == None && x in t && other != ""
    ensures var (t', f) := Created(t, d, name, news);
            && x in t' && t'[x].isDir == t[x].isDir
            && Lookup(t', x, other) == if x == d && other == name then Some(f) else Lookup(t, x, other)
  {
    var s := t[d].entries;
    match Find(s, "")
    case Some(i) =>
      if x == d { FindRenamed(s, i, name, other); }
    case None =>
      var s1 := s + seq(|news|, i requires 0 <= i < |news| => Entry("", news[i]));
      if x == d {
        FindAppended(s, s1, other);
        FindAppended(s, s1, name);
        FindRenamed(s1, |s|, name, other);
      }
  }

  lemma FindUnique(s: seq<Entry>, name: string, i: nat)
    requires i < |s| && s[i].name == name && forall k :: 0 <= k < i ==> s[k].name != name
    ensures Find(s, name) == Some(i)
  {
  }

  lemma FindRenamed(s: seq<Entry>, i: nat, name: string, other: string)
    requires i < |s| && s[i].name == "" && name != "" && other != "" && Find(s, name) == None
    ensures Find(s[i := s[i].(name := name)], other) == if other == name then Some(i) else Find(s, other)
  {
    var s' := s[i := s[i].(name := name)];
    if other == name {
      FindUnique(s', name, i);
    } else if Find(s, other).Some? {
      FindUnique(s', other, Find(s, other).value);
    } else {
      FindNone(s', other);
    }
  }

  lemma FindNone(s: seq<Entry>, name: string)
    requires forall i :: 0 <= i < |s| ==> s[i].name != name
    ensures Find(s, name) == None
  {
  }

  lemma FindAppended(s: seq<Entry>, s': seq<Entry>, other: string)
    requires s <= s' && other != "" && forall i :: |s| <= i < |s'| ==> s'[i].name == ""
    ensures Find(s', other) == Find(s, other)
  {
    if Find(s, other).Some? {
      FindUnique(s', other, Find(s, other).value);
    } else {
      FindNone(s', other);
    }
  }

  /** Every list of names that led to a file before file_create leads to the same file afterwards. */
  lemma {:induction false} CreatedKeepsPaths(t: Tree, root: nat, file: nat, names: seq<string>, d: nat, last: string,
                                             news: seq<nat>)
    requires Ok(t, root) && file in t && d in t && |news| == FsBlocks.FILE2BLK && last != ""
             && Lookup(t, d, last) == None
    requires (forall i :: 0 <= i < |names| ==> names[i] != "") && Follow(t, file, names).Some?
    ensures var (t', f) := Created(t, d, last, news); file in t' && Follow(t', file, names) == Follow(t, file, names)
    decreases |names|
  {
    CreatedLookup(t, d, last, news, file, if names == [] then last else names[0]);
    if names != [] {
      LookupInTree(t, root, file, names[0]);
      var g := Lookup(t, file, names[0]).value;
      CreatedLookup(t, d, last, news, g, last);
      CreatedKeepsPaths(t, root, g, names[1..], d, last, news);
    }
  }

  /** After file_create of a path, walking the path finds the new file. */
  lemma {:induction false} CreatedIsFound(t: Tree, root: nat, file: nat, names: seq<string>, d: nat, last: string,
                                          news: seq<nat>)
    requires Ok(t, root) && file in t && d in t && t[d].isDir && |news| == FsBlocks.FILE2BLK && last != ""
             && Lookup(t, d, last) == None
    requires forall i :: 0 <= i < |names| ==> names[i] != ""
    requires Follow(t, file, names) == Some(d) && (forall f :: f in news ==> f !in t)
    ensures var (t', f) := Created(t, d, last, news);
            f in t' && file in t' && Follow(t', file, names + [last]) == Some(f)
    decreases |names|
  {
    var (t', f) := Created(t, d, last, news);
    CreatedLookup(t, d, last, news, file, if names == [] then last else names[0]);
    if names == [] {
      assert [last][1..] == [];
    } else {
      LookupInTree(t, root, file, names[0]);
      var g := Lookup(t, file, names[0]).value;
      CreatedIsFound(t, root, g, names[1..], d, last, news);
      assert (names + [last])[1..] == names[1..] + [last];
    }
  }

  /** file_remove clears the name of the entry: if no other entry of the directory has the name, it is gone,
      and no other name is affected. */
  lemma RemovedLookup(t: Tree, d: nat, name: string, x: nat, other: string)
    requires d in t && x in t && name != "" && other != "" && Find(t[d].entries, name).Some?
    ensures var i := Find(t[d].entries, name).value;
            var t' := Rename(t, d, i, "");
            && (x != d || other != name ==> Lookup(t', x, other) == Lookup(t, x, other))
            && (Lookup(t', d, name) == None <==> forall k :: 0 <= k < |t[d].entries| && k != i ==>
                t[d].entries[k].name != name)
  {
    var s := t[d].entries;
    var i := Find(s, name).value;
    var s' := s[i := s[i].(name := "")];
    if x == d && other != name {
      if Find(s, other).Some? {
        FindUnique(s', other, Find(s, other).value);
      } else {
        FindNone(s', other);
      }
    }
    if Find(s', name).Some? {
      assert s[Find(s', name).value].name == name;
    } else {
      forall k | 0 <= k < |s| && k != i ensures s[k].name != name {
        assert s'[k].name != name;
      }
    }
  }

  /* ---- The tree that changes ---- */

  lemma RenameOk(t: Tree, root: nat, d: nat, i: nat, name: string)
    requires Ok(t, root) && d in t && i < |t[d].entries|
    ensures Ok(Rename(t, d, i, name), root)
  {
  }

  lemma ExtendOk(t: Tree, root: nat, d: nat, news: seq<nat>)
    requires Ok(t, root) && d in t && |news| == FsBlocks.FILE2BLK
    ensures Ok(Extend(t, d, news), root)
    ensures d in Extend(t, d, news) && |Extend(t, d, news)[d].entries| == |t[d].entries| + FsBlocks.FILE2BLK
  {
    var t1 := Extend(t, d, news);
    assert forall x :: x in t1 <==> x in t || x in news;
    assert forall i :: 0 <= i < |news| ==> news[i] in news;
    forall x | x in t1
      ensures |t1[x].entries| % FsBlocks.FILE2BLK == 0
              && forall i :: 0 <= i < |t1[x].entries| ==> t1[x].entries[i].file in t1 {
      assert x != d ==> t1[x] == if x in t then t[x] else Node(false, []);
    }
  }

  lemma CreatedOk(t: Tree, root: nat, d: nat, name: string, news: seq<nat>)
    requires Ok(t, root) && d in t && |news| == FsBlocks.FILE2BLK
    ensures Ok(Created(t, d, name, news).0, root)
  {
    hide Ok, Rename, Extend;
    match Find(t[d].entries, "")
    case Some(i) => RenameOk(t, root, d, i, name);
    case None =>
      ExtendOk(t, root, d, news);
      RenameOk(Extend(t, d, news), root, d, |t[d].entries|, name);
  }

  class Names {
    var tree: Tree
    const root: nat

    ghost predicate Valid()
      reads this
    {
      Ok(tree, root)
    }

    /** An empty root directory. */
    constructor ()
      ensures Valid() && tree[root] == Node(true, [])
    {
      root := 0;
      tree := map[0 := Node(true, [])];
    }

    /** dir_alloc_file: the index of the first unused struct File of the directory. If there is none, the
        directory grows by a block of them, which are the struct Files news. */
    method DirAllocFile(d: nat, news: seq<nat>) returns (i: nat)
      requires Valid() && d in tree && |news| == FsBlocks.FILE2BLK
      modifies this`tree
      ensures Find(old(tree)[d].entries, "") == Some(i) ==> tree == old(tree)
      ensures Find(old(tree)[d].entries, "") == None ==>
                tree == Extend(old(tree), d, news) && i == |old(tree)[d].entries|
      ensures Find(old(tree)[d].entries, "").Some? ==> Find(old(tree)[d].entries, "") == Some(i)
    {
      var s := tree[d].entries;
      i := 0;
      while i < |s|
        invariant i <= |s| && forall k :: 0 <= k < i ==> s[k].name != ""
      {
        if s[i].name == "" {
          FindUnique(s, "", i);
          return;
        }
        i := i + 1;
      }
      FindNone(s, "");
      tree := Extend(tree, d, news);
    }

    /** file_create: it succeeds exactly when only the last name of the path is missing, and then the path
        leads to the new file. */
    method FileCreate(path: string, news: seq<nat>) returns (r: int, file: nat)
      requires Valid() && |news| == FsBlocks.FILE2BLK && forall f :: f in news ==> f !in tree
      modifies this`tree
      ensures Valid()
      ensures var w := Resolve(old(tree), None, root, Components(path), WALK_LIMIT);
              && (r == 0 <==> w.Missing?)
              && (w.Found? ==> r == -E_FILE_EXISTS) && (w.NotFound? ==> r == -E_NOT_FOUND)
                 && (w.BadPath? ==> r == -E_BAD_PATH)
              && (r == 0 ==> w.parent in old(tree) && (tree, file) == Created(old(tree), w.parent, w.last, news))
              && (r != 0 ==> tree == old(tree))
      ensures r == 0 && ShortNames(Components(path)) ==> Follow(tree, root, Components(path)) == Some(file)
    {
      hide Components, Resolve, Follow;
      var dir, f, name;
      r, dir, f, name := WalkPath(tree, root, path);
      file := root;
      if r == 0 {
        return -E_FILE_EXISTS, file;
      }
      if r != -E_NOT_FOUND || dir == None {
        return;
      }
      MissingParent(tree, root, None, root, Components(path));
      CreatedOk(tree, root, dir.value, name.value, news);
      if ShortNames(Components(path)) {
        CreatedPath(tree, root, path, news);
      }
      var i := DirAllocFile(dir.value, news);
      file := tree[dir.value].entries[i].file;
      tree := Rename(tree, dir.value, i, name.value);
      r := 0;
    }

    /** file_remove, without the truncation: the entry that the path leads to loses its name. */
    method FileRemove(path: string) returns (r: int)
      requires Valid()
      modifies this`tree
      ensures Valid()
      ensures var w := Resolve(old(tree), None, root, Components(path), WALK_LIMIT);
              && (r == 0 <==> w.Found?)
              && (w.Found? && w.dir.Some? ==>
                    && Components(path) != [] && w.dir.value in old(tree)
                    && (var name := Components(path)[|Components(path)| - 1];
                        var i := Find(old(tree)[w.dir.value].entries, name);
                        i.Some? && old(tree)[w.dir.value].entries[i.value].file == w.file
                        && tree == Rename(old(tree), w.dir.value, i.value, "")))
              && (!w.Found? || w.dir == None ==> tree == old(tree))
    {
      hide Components, Resolve;
      var dir, f, name;
      r, dir, f, name := WalkPath(tree, root, path);
      if r != 0 || dir == None {
        return;
      }
      FoundParent(tree, root, None, root, Components(path));
      var names := Components(path);
      var i := Find(tree[dir.value].entries, names[|names| - 1]);
      tree := Rename(tree, dir.value, i.value, "");
    }
  }

  /** The directory that a failed walk reports is in the tree, is a directory and lacks the name. */
  lemma {:induction false} MissingParent(t: Tree, root: nat, dir: Option<nat>, file: nat, names: seq<string>)
    requires Ok(t, root) && file in t && Resolve(t, dir, file, names, WALK_LIMIT).Missing?
    ensures var w := Resolve(t, dir, file, names, WALK_LIMIT);
            w.parent in t && t[w.parent].isDir && Lookup(t, w.parent, w.last) == None && names != []
              && w.last == names[|names| - 1]
    decreases |names|
  {
    match Lookup(t, file, names[0])
    case None =>
    case Some(g) => MissingParent(t, root, Some(file), g, names[1..]);
  }

  /** The directory that a successful walk reports has the file under the last name. */
  lemma {:induction false} FoundParent(t: Tree, root: nat, dir: Option<nat>, file: nat, names: seq<string>)
    requires Ok(t, root) && file in t && Resolve(t, dir, file, names, WALK_LIMIT).Found?
    ensures var w := Resolve(t, dir, file, names, WALK_LIMIT);
            if names == [] then w.dir == dir && w.file == file
            else w.dir.Some? && w.dir.value in t && Lookup(t, w.dir.value, names[|names| - 1]) == Some(w.file)
    decreases |names|
  {
    if names != [] {
      var g := Lookup(t, file, names[0]).value;
      FoundParent(t, root, Some(file), g, names[1..]);
      assert Lookup(t, file, names[0]) == Some(g);
    }
  }

  lemma NamesAreNotEmpty(path: string)
    ensures forall i :: 0 <= i < |Components(path)| ==> Components(path)[i] != ""
  {
    hide Split;
  }

  lemma CreatedPath(t: Tree, root: nat, path: string, news: seq<nat>)
    requires Ok(t, root) && |news| == FsBlocks.FILE2BLK && (forall f :: f in news ==> f !in t)
             && ShortNames(Components(path))
    requires Resolve(t, None, root, Components(path), WALK_LIMIT).Missing?
    ensures var w := Resolve(t, None, root, Components(path), WALK_LIMIT);
            && w.parent in t && root in Created(t, w.parent, w.last, news).0
            && Follow(Created(t, w.parent, w.last, news).0, root, Components(path)) ==
                 Some(Created(t, w.parent, w.last, news).1)
  {
    var names := Components(path);
    var w := Resolve(t, None, root, names, WALK_LIMIT);
    hide Created, Resolve, Follow, Split, Ok, Lookup, NonEmpty, Components;
    NamesAreNotEmpty(path);
    MissingParent(t, root, None, root, names);
    MissingIsLast(t, None, root, names, root);
    assert names[..|names| - 1] + [names[|names| - 1]] == names;
    CreatedIsFound(t, root, root, names[..|names| - 1], w.parent, w.last, news);
  }
}
