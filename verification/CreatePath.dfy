/** Creating a folder or a file under a root directory, as filesystem_tools.py does it: a walk over
    directory descriptors that never follows a symbolic link, with any system call able to fail. */
module CreatePath {
  import opened Wrappers
  import opened Text

  // ---- paths ------------------------------------------------------------------------------------------------

  /** str.split("/"). */
  function Split(path: string): (parts: seq<string>)
    ensures parts != []
    decreases |path|
  {
    var cut := RPartition(path, '/');
    if !cut.found then [path] else Split(cut.head) + [cut.tail]
  }

  function Join(parts: seq<string>): string
    requires parts != []
  {
    if |parts| == 1 then parts[0] else Join(parts[..|parts| - 1]) + "/" + parts[|parts| - 1]
  }

  lemma {:induction false} SplitJoins(path: string)
    ensures Join(Split(path)) == path
    ensures forall k :: 0 <= k < |Split(path)| ==> '/' !in Split(path)[k]
    decreases |path|
  {
    hide RPartition, Join;
    LastCut(path);
    var cut := RPartition(path, '/');
    if cut.found {
      SplitJoins(cut.head);
      JoinLast(Split(cut.head), cut.tail);
    } else {
      JoinOne(path);
    }
  }

  lemma LastCut(path: string)
    ensures var cut := RPartition(path, '/');
            '/' !in cut.tail && (cut.found ==> |cut.head| < |path| && path == cut.head + ['/'] + cut.tail)
            && (!cut.found ==> cut.tail == path)
  {
  }

  lemma JoinOne(part: string)
    ensures Join([part]) == part
  {
  }

  lemma JoinLast(parts: seq<string>, part: string)
    requires parts != []
    ensures Join(parts + [part]) == Join(parts) + ['/'] + part
  {
    assert (parts + [part])[..|parts|] == parts;
  }

  predicate EndsWith(s: string, suffix: string) { |s| >= |suffix| && s[|s| - |suffix|..] == suffix }

  predicate GoodPart(part: string) { part != "" && part[0] != '.' }

  /** No hidden name, empty part, traversal, backslash or NUL. */
  predicate GoodPath(path: string) {
    && path != "" && '\\' !in path && '\0' !in path
    && forall k :: 0 <= k < |Split(path)| ==> GoodPart(Split(path)[k])
  }

  /** The same on the characters: no name starts with a dot or a slash, and the last one is not missing. */
  predicate PlainNames(path: string) {
    && path != "" && path[0] !in {'.', '/'} && path[|path| - 1] != '/'
    && forall k :: 0 < k < |path| && path[k - 1] == '/' ==> path[k] !in {'.', '/'}
  }

  lemma PlainConcat(head: string, tail: string)
    requires '/' !in tail
    ensures PlainNames(head + ['/'] + tail) <==> PlainNames(head) && GoodPart(tail)
  {
    var path, n := head + ['/'] + tail, |head|;
    assert path[n] == '/' && forall k :: 0 <= k < n ==> path[k] == head[k];
    assert forall k :: n < k < |path| ==> path[k] == tail[k - n - 1];
    if PlainNames(path) {
      assert n > 0 ==> head[0] == path[0] && head[n - 1] == path[n - 1];
      assert tail != "" ==> tail[0] == path[n + 1];
      forall k | 0 < k < n && head[k - 1] == '/' ensures head[k] !in {'.', '/'} {
        assert path[k - 1] == '/' && path[k] == head[k];
      }
    } else if PlainNames(head) && GoodPart(tail) {
      assert path[0] == head[0] && path[|path| - 1] == tail[|tail| - 1];
      forall k | 0 < k < |path| && path[k - 1] == '/' ensures path[k] !in {'.', '/'} {
        if k < n { assert head[k - 1] == '/'; }
      }
    }
  }

  lemma {:induction false} GoodNames(path: string)
    ensures (forall k :: 0 <= k < |Split(path)| ==> GoodPart(Split(path)[k])) <==> PlainNames(path)
    ensures |Split(path)| == 1 <==> '/' !in path
    decreases |path|
  {
    hide RPartition, PlainNames, GoodPart;
    LastCut(path);
    var cut := RPartition(path, '/');
    if cut.found {
      GoodNames(cut.head);
      PlainConcat(cut.head, cut.tail);
      assert Split(path) == Split(cut.head) + [cut.tail];
      assert Split(path)[|Split(path)| - 1] == cut.tail;
      assert forall k :: 0 <= k < |Split(cut.head)| ==> Split(path)[k] == Split(cut.head)[k];
    } else {
      OneName(path);
      assert Split(path)[0] == path;
    }
  }

  lemma GoodPathText(path: string)
    ensures GoodPath(path) <==>
              && path != "" && '\\' !in path && '\0' !in path
              && path[0] !in {'.', '/'} && path[|path| - 1] != '/'
              && forall k :: 0 < k < |path| && path[k - 1] == '/' ==> path[k] !in {'.', '/'}
  {
    hide Split, GoodPart;
    GoodNames(path);
  }

  lemma DeviceYamlText(path: string)
    ensures IsDeviceYaml(path) <==>
              && '/' !in path
              && (|| (|path| >= 5 && Lower(path)[|path| - 5..] == ".yaml")
                  || (|path| >= 4 && Lower(path)[|path| - 4..] == ".yml"))
  {
    hide Split;
    GoodNames(path);
  }

  lemma OneName(path: string)
    requires '/' !in path
    ensures PlainNames(path) <==> GoodPart(path)
  {
  }

  predicate IsDeviceYaml(path: string) {
    |Split(path)| == 1 && (EndsWith(Lower(path), ".yaml") || EndsWith(Lower(path), ".yml"))
  }

  // ---- the tree -----------------------------------------------------------------------------------------------

  datatype Kind = Directory | Symlink | Regular

  datatype Tree = Tree(entries: map<(nat, string), nat>, kinds: map<nat, Kind>, texts: map<nat, string>) {

    ghost predicate Valid() {
      && (forall k :: k in entries ==> k.0 in kinds && entries[k] in kinds)
      && (forall i :: i in texts ==> i in kinds)
    }

    /** The directory a list of names leads to through real directories. */
    function Walk(d: nat, parts: seq<string>): Option<nat> {
      if parts == [] then Some(d)
      else
        var up := Walk(d, parts[..|parts| - 1]);
        if up.None? then None else Child(up.value, parts[|parts| - 1])
    }

    function Child(d: nat, name: string): Option<nat> {
      if (d, name) in entries && entries[(d, name)] in kinds && kinds[entries[(d, name)]] == Directory
      then Some(entries[(d, name)]) else None
    }

    function Plus(d: nat, name: string, inode: nat, kind: Kind): Tree {
      Tree(entries[(d, name) := inode], kinds[inode := kind], if kind == Regular then texts[inode := ""] else texts)
    }

    function Minus(d: nat, name: string): Tree { this.(entries := entries - {(d, name)}) }
  }

  /** Nothing that was there has changed. */
  ghost predicate Extends(t: Tree, u: Tree) {
    && (forall k :: k in t.entries ==> k in u.entries && u.entries[k] == t.entries[k])
    && (forall i :: i in t.kinds ==> i in u.kinds && u.kinds[i] == t.kinds[i])
    && (forall i :: i in t.texts ==> i in u.texts && u.texts[i] == t.texts[i])
  }

  /** Whatever is new has a name of the path and hangs in the directory the names before it lead to. */
  ghost predicate Confined(t: Tree, u: Tree, root: nat, parts: seq<string>) {
    forall k :: k in u.entries && k !in t.entries ==>
      exists j :: 0 <= j < |parts| && k.1 == parts[j] && u.Walk(root, parts[..j]) == Some(k.0)
  }

  lemma {:induction false} WalkExtends(t: Tree, u: Tree, d: nat, parts: seq<string>)
    requires Extends(t, u) && t.Walk(d, parts).Some?
    ensures u.Walk(d, parts) == t.Walk(d, parts)
  {
    if parts != [] { WalkExtends(t, u, d, parts[..|parts| - 1]); }
  }

  /** A further name at the end of the walk keeps what is new on the path. */
  lemma ConfinedGrows(t: Tree, u: Tree, w: Tree, root: nat, parts: seq<string>, i: int, d: nat)
    requires Confined(t, u, root, parts) && Extends(u, w)
    requires 0 <= i < |parts| && u.Walk(root, parts[..i]) == Some(d)
    requires forall k :: k in w.entries && k !in u.entries ==> k == (d, parts[i])
    ensures Confined(t, w, root, parts)
  {
    hide Tree.Walk;
    forall k | k in w.entries && k !in t.entries
      ensures exists j :: 0 <= j < |parts| && k.1 == parts[j] && w.Walk(root, parts[..j]) == Some(k.0)
    {
      if k in u.entries {
        var j :| 0 <= j < |parts| && k.1 == parts[j] && u.Walk(root, parts[..j]) == Some(k.0);
        WalkExtends(u, w, root, parts[..j]);
      } else {
        WalkExtends(u, w, root, parts[..i]);
      }
    }
  }

  // ---- what a call answers when nothing fails --------------------------------------------------------------------

  function LeafOutcome(t: Tree, d: nat, name: string, content: Option<string>): Outcome {
    if (d, name) !in t.entries then Done(true)
    else if t.Child(d, name).Some? && content.None? then Done(false)
    else if IsLink(t, t.entries[(d, name)]) then Failed(SymlinkRefused)
    else Failed(AlreadyExists)
  }

  predicate IsLink(t: Tree, inode: nat) { inode in t.kinds && t.kinds[inode] == Symlink }

  /** From a directory down the remaining names: the first one that is missing is where creation starts, or
      where the walk ends. */
  function OutcomeFrom(t: Tree, d: nat, parts: seq<string>, parents: bool, content: Option<string>): (out: Outcome)
    requires parts != []
    ensures !out.Threw? && (out.Failed? ==> out.code !in {InvalidPath, DeviceYaml, RootMissing})
    decreases |parts|
  {
    if |parts| == 1 then LeafOutcome(t, d, parts[0], content)
    else if t.Child(d, parts[0]).Some? then OutcomeFrom(t, t.Child(d, parts[0]).value, parts[1..], parents, content)
    else if (d, parts[0]) !in t.entries then (if parents then Done(true) else Failed(ParentNotFound))
    else if IsLink(t, t.entries[(d, parts[0])]) then Failed(SymlinkRefused)
    else Failed(NotADirectory)
  }

  /** The answer by the first name that is not the way to go on: everything before it leads through real
      directories to `d`, and it is the last name or stands for no directory in `d`. */
  lemma FirstObstacle(t: Tree, root: nat, parts: seq<string>, parents: bool, content: Option<string>, k: nat, d: nat)
    requires k < |parts| && t.Walk(root, parts[..k]) == Some(d)
    requires k == |parts| - 1 || t.Walk(root, parts[..k + 1]) == None
    ensures var at, last := (d, parts[k]), k == |parts| - 1;
            OutcomeFrom(t, root, parts, parents, content) ==
            if at !in t.entries then (if last || parents then Done(true) else Failed(ParentNotFound))
            else
              var kind := if t.entries[at] in t.kinds then Some(t.kinds[t.entries[at]]) else None;
              if last && kind == Some(Directory) && content == None then Done(false)
              else if kind == Some(Symlink) then Failed(SymlinkRefused)
              else if last then Failed(AlreadyExists) else Failed(NotADirectory)
  {
    OutcomeBelow(t, root, parts, parents, content, k, d);
    assert parts[..k + 1][..k] == parts[..k];
    assert |parts[k..]| == |parts| - k && parts[k..][0] == parts[k];
  }

  lemma {:induction false} OutcomeBelow(t: Tree, root: nat, parts: seq<string>, parents: bool, content: Option<string>,
          k: nat, d: nat)
    requires k < |parts| && t.Walk(root, parts[..k]) == Some(d)
    ensures OutcomeFrom(t, root, parts, parents, content) == OutcomeFrom(t, d, parts[k..], parents, content)
  {
    if k == 0 {
      assert parts[0..] == parts;
    } else {
      assert parts[..k][..k - 1] == parts[..k - 1];
      var e := t.Walk(root, parts[..k - 1]).value;
      OutcomeBelow(t, root, parts, parents, content, k - 1, e);
      assert parts[k - 1..][0] == parts[k - 1] && parts[k - 1..][1..] == parts[k..];
    }
  }

  function PathOutcome(t: Tree, root: Option<nat>, path: string, parents: bool, content: Option<string>): Outcome {
    if !GoodPath(path) then Failed(InvalidPath)
    else if content.Some? && IsDeviceYaml(path) then Failed(DeviceYaml)
    else if root.None? then Failed(RootMissing)
    else if root.value !in t.kinds || t.kinds[root.value] != Directory then Failed(SymlinkRefused)
    else OutcomeFrom(t, root.value, Split(path), parents, content)
  }

  // ---- the system calls ------------------------------------------------------------------------------------------

  datatype Errno = ENOENT | EEXIST | ELOOP | ENOTDIR | EBADF | OtherError | NotOsError

  datatype Code =
    | InvalidPath | DeviceYaml | RootMissing | SymlinkRefused | ParentNotFound | NotADirectory | AlreadyExists
    | FilesystemError

  /** What _create gives its caller: success, a stable error, or an exception that escapes. */
  datatype Outcome = Done(created: bool) | Failed(code: Code) | Threw

  /** How a block of the walk ends: it goes on, returns, or raises. */
  datatype Step = Go | Return(out: Outcome) | Raise(errno: Errno)

  datatype Reply = Ok(value: nat) | Err(errno: Errno)

  /** The calls whose failure loses a descriptor, the close that ends the walk, and all others. */
  datatype Site = FstatNew | CloseParent | CloseLast | Elsewhere

  class Kernel {
    var tree: Tree
    var nextInode: nat
    var openFds: map<nat, nat>
    var nextFd: nat
    /** How many times a descriptor was closed that was not open. */
    var badCloses: nat
    var calls: nat
    var failed: set<Site>
    /** Which call fails, and with what; a failed write leaves some text behind. */
    const faults: nat -> Option<Errno>
    const torn: string

    constructor (tree: Tree, nextInode: nat, faults: nat -> Option<Errno>, torn: string)
      requires tree.Valid() && forall i :: i in tree.kinds ==> i < nextInode
      ensures Valid() && this.tree == tree && this.faults == faults && openFds == map[] && failed == {}
    {
      this.tree, this.nextInode, this.faults, this.torn := tree, nextInode, faults, torn;
      openFds, nextFd, badCloses, calls, failed := map[], 3, 0, 0, {};
    }

    ghost predicate Valid()
      reads this
    {
      && tree.Valid()
      && (forall i :: i in tree.kinds ==> i < nextInode)
      && (forall fd :: fd in openFds ==> fd < nextFd && openFds[fd] in tree.kinds)
    }

    ghost predicate NeverFails() { forall n :: faults(n) == None }

    /** Every call that fails fails with an error the walk has no own use for. */
    ghost predicate FailsWith(e: Errno) {
      e in {OtherError, NotOsError} && forall n :: faults(n).Some? ==> faults(n) == Some(e)
    }

    /** A descriptor of a directory. */
    ghost predicate IsDir(fd: nat)
      reads this
    {
      fd in openFds && openFds[fd] in tree.kinds && tree.kinds[openFds[fd]] == Directory
    }

    method Fault(site: Site) returns (fault: Option<Errno>)
      modifies this`calls, this`failed
      ensures fault.Some? ==> failed == old(failed) + {site}
      ensures fault.None? ==> failed == old(failed)
      ensures NeverFails() ==> fault.None?
      ensures forall e :: FailsWith(e) && fault.Some? ==> fault == Some(e)
    {
      fault := faults(calls);
      calls := calls + 1;
      if fault.Some? { failed := failed + {site}; }
    }

    /** open(name, O_RDONLY | O_DIRECTORY | O_NOFOLLOW, dir_fd=fd), or of the root itself. */
    method OpenDir(inode: Option<nat>) returns (r: Reply)
      requires Valid() && (inode.Some? ==> inode.value in tree.kinds)
      modifies this`calls, this`failed, this`openFds, this`nextFd
      ensures Valid()
      ensures r.Ok? ==>
                inode.Some? && r.value == old(nextFd) && openFds == old(openFds)[r.value := inode.value]
                && IsDir(r.value)
      ensures r.Err? ==> openFds == old(openFds)
      ensures r.Ok? ==> failed == old(failed)
      ensures r.Err? ==> failed == old(failed) || failed == old(failed) + {Elsewhere}
      ensures failed == {} ==>
                match inode
                case None => r == Err(ENOENT)
                case Some(i) => match tree.kinds[i]
                  case Directory => r.Ok?
                  case Symlink => r == Err(ELOOP)
                  case Regular => r == Err(ENOTDIR)
      ensures NeverFails() ==> failed == old(failed)
      ensures forall e :: FailsWith(e) && failed != old(failed) ==> r == Err(e)
    {
      var fault := Fault(Elsewhere);
      if fault.Some? { return Err(fault.value); }
      if inode.None? { return Err(ENOENT); }
      match tree.kinds[inode.value]
      case Directory =>
        openFds, nextFd := openFds[nextFd := inode.value], nextFd + 1;
        return Ok(nextFd - 1);
      case Symlink => return Err(ELOOP);
      case Regular => return Err(ENOTDIR);
    }

    function Entry(fd: nat, name: string): Option<nat>
      reads this
      requires fd in openFds
    {
      if (openFds[fd], name) in tree.entries then Some(tree.entries[(openFds[fd], name)]) else None
    }

    /** mkdir(name, dir_fd=fd): whatever the name already stands for, a link included, is in the way. */
    method Mkdir(fd: nat, name: string) returns (r: Reply)
      requires Valid() && IsDir(fd)
      modifies this`calls, this`failed, this`tree, this`nextInode
      ensures Valid() && Extends(old(tree), tree)
      ensures r.Err? ==> tree == old(tree) && (failed == old(failed) || failed == old(failed) + {Elsewhere})
      ensures r.Ok? ==> failed == old(failed) && old(Entry(fd, name)) == None
                        && tree == old(tree).Plus(openFds[fd], name, old(nextInode), Directory)
      ensures failed == {} ==> r == (if old(Entry(fd, name)) == None then Ok(old(nextInode)) else Err(EEXIST))
      ensures NeverFails() ==> failed == old(failed)
      ensures forall e :: FailsWith(e) && failed != old(failed) ==> r == Err(e)
    {
      var fault := Fault(Elsewhere);
      if fault.Some? { return Err(fault.value); }
      if (openFds[fd], name) in tree.entries { return Err(EEXIST); }
      tree := tree.Plus(openFds[fd], name, nextInode, Directory);
      nextInode := nextInode + 1;
      return Ok(nextInode - 1);
    }

    /** open(name, O_WRONLY | O_CREAT | O_EXCL | O_NOFOLLOW, dir_fd=fd). */
    method OpenNew(fd: nat, name: string) returns (r: Reply)
      requires Valid() && IsDir(fd)
      modifies this`calls, this`failed, this`tree, this`nextInode, this`openFds, this`nextFd
      ensures Valid() && Extends(old(tree), tree)
      ensures r.Err? ==>
                tree == old(tree) && openFds == old(openFds)
                && (failed == old(failed) || failed == old(failed) + {Elsewhere})
      ensures r.Ok? ==> failed == old(failed) && old(Entry(fd, name)) == None && r.value == old(nextFd)
                        && openFds == old(openFds)[r.value := old(nextInode)]
                        && tree == old(tree).Plus(old(openFds[fd]), name, old(nextInode), Regular)
      ensures failed == {} ==> (r.Ok? <==> old(Entry(fd, name)) == None) && (r.Err? ==> r == Err(EEXIST))
      ensures NeverFails() ==> failed == old(failed)
      ensures forall e :: FailsWith(e) && failed != old(failed) ==> r == Err(e)
    {
      var fault := Fault(Elsewhere);
      if fault.Some? { return Err(fault.value); }
      if (openFds[fd], name) in tree.entries { return Err(EEXIST); }
      tree := tree.Plus(openFds[fd], name, nextInode, Regular);
      openFds := openFds[nextFd := nextInode];
      nextInode, nextFd := nextInode + 1, nextFd + 1;
      return Ok(nextFd - 1);
    }

    /** stat(name, dir_fd=fd, follow_symlinks=False): the inode, whose kind the caller then looks at. */
    method Stat(fd: nat, name: string) returns (r: Reply)
      requires Valid() && fd in openFds
      modifies this`calls, this`failed
      ensures Valid()
      ensures failed == old(failed) || failed == old(failed) + {Elsewhere}
      ensures r.Ok? ==> failed == old(failed) && Entry(fd, name) == Some(r.value)
      ensures failed == {} ==> r == if Entry(fd, name).None? then Err(ENOENT) else Ok(Entry(fd, name).value)
      ensures NeverFails() ==> failed == old(failed)
      ensures forall e :: FailsWith(e) && r.Err? ==>
                r.errno in {e, ENOENT} && (failed != old(failed) ==> r.errno == e)
    {
      var fault := Fault(Elsewhere);
      if fault.Some? { return Err(fault.value); }
      if (openFds[fd], name) !in tree.entries { return Err(ENOENT); }
      return Ok(tree.entries[(openFds[fd], name)]);
    }

    method Fstat(fd: nat) returns (r: Reply)
      requires Valid() && fd in openFds
      modifies this`calls, this`failed
      ensures Valid()
      ensures r.Ok? ==> failed == old(failed) && r.value == openFds[fd]
      ensures r.Err? ==> failed == old(failed) + {FstatNew}
      ensures failed == {} ==> r.Ok?
      ensures NeverFails() ==> failed == old(failed)
      ensures forall e :: FailsWith(e) && failed != old(failed) ==> r == Err(e)
    {
      var fault := Fault(FstatNew);
      if fault.Some? { return Err(fault.value); }
      return Ok(openFds[fd]);
    }

    /** close(fd): the descriptor is gone even when the call reports an error. */
    method Close(fd: nat, site: Site) returns (r: Reply)
      requires Valid()
      modifies this`calls, this`failed, this`openFds, this`badCloses
      ensures Valid() && openFds == old(openFds) - {fd}
      ensures badCloses == if fd in old(openFds) then old(badCloses) else old(badCloses) + 1
      ensures fd !in old(openFds) ==> r == Err(EBADF)
      ensures fd in old(openFds) && r.Ok? ==> failed == old(failed)
      ensures fd in old(openFds) && r.Err? ==> failed == old(failed) + {site}
      ensures old(failed) <= failed <= old(failed) + {site}
      ensures failed == {} && fd in old(openFds) ==> r.Ok?
      ensures NeverFails() && fd in old(openFds) ==> failed == old(failed)
      ensures forall e :: FailsWith(e) && fd in old(openFds) && r.Err? ==> r == Err(e)
    {
      if fd !in openFds {
        badCloses := badCloses + 1;
        return Err(EBADF);
      }
      openFds := openFds - {fd};
      var fault := Fault(site);
      if fault.Some? { return Err(fault.value); }
      return Ok(0);
    }

    /** os.fdopen and the write through it, whose end closes the descriptor. A failed fdopen leaves the
        descriptor open (`adopted` false); a failed write leaves some text. */
    method WriteAll(fd: nat, text: string) returns (r: Reply, adopted: bool)
      requires Valid() && fd in openFds && openFds[fd] in tree.texts
      modifies this`calls, this`failed, this`tree, this`openFds
      ensures Valid()
      ensures openFds == if adopted then old(openFds) - {fd} else old(openFds)
      ensures r.Ok? ==> adopted && failed == old(failed)
      ensures r.Err? ==> failed == old(failed) + {Elsewhere}
      ensures tree == if !adopted then old(tree) else
                old(tree).(texts := old(tree).texts[old(openFds[fd]) := if r.Ok? then text else torn])
      ensures failed == {} ==> r.Ok?
      ensures NeverFails() ==> failed == old(failed)
      ensures forall e :: FailsWith(e) && r.Err? ==> r == Err(e)
    {
      var fault := Fault(Elsewhere);
      if fault.Some? { return Err(fault.value), false; }
      fault := Fault(Elsewhere);
      tree := tree.(texts := tree.texts[openFds[fd] := if fault.None? then text else torn]);
      openFds := openFds - {fd};
      if fault.Some? { return Err(fault.value), true; }
      return Ok(0), true;
    }

    method Unlink(fd: nat, name: string) returns (r: Reply)
      requires Valid() && fd in openFds
      modifies this`calls, this`failed, this`tree
      ensures Valid()
      ensures failed == old(failed) || failed == old(failed) + {Elsewhere}
      ensures tree == (if r.Ok? then old(tree).Minus(openFds[fd], name) else old(tree))
      ensures NeverFails() ==> failed == old(failed)
      ensures forall e :: FailsWith(e) && r.Err? ==>
                r.errno in {e, ENOENT} && (failed != old(failed) ==> r.errno == e)
    {
      var fault := Fault(Elsewhere);
      if fault.Some? { return Err(fault.value); }
      if (openFds[fd], name) !in tree.entries { return Err(ENOENT); }
      tree := tree.Minus(openFds[fd], name);
      return Ok(0);
    }

    // ---- the walk ------------------------------------------------------------------------------------------

    method ComponentError(fd: nat, name: string) returns (s: Step)
      requires Valid() && fd in openFds
      modifies this`calls, this`failed
      ensures Valid() && !s.Go? && !(s.Return? && s.out.Done?)
      ensures failed == old(failed) || failed == old(failed) + {Elsewhere}
      ensures failed == {} ==>
                s == Return(Failed(if Entry(fd, name).None? then ParentNotFound
                                   else if IsLink(tree, Entry(fd, name).value) then SymlinkRefused else NotADirectory))
      ensures NeverFails() ==> failed == old(failed)
      ensures forall e :: FailsWith(e) && old(failed) == {} && failed != {} ==> s == Raise(e)
    {
      var r := Stat(fd, name);
      match r
      case Ok(inode) => return Return(Failed(if IsLink(tree, inode) then SymlinkRefused else NotADirectory));
      case Err(e) => return if e == ENOENT then Return(Failed(ParentNotFound)) else Raise(e);
    }

    /** Open a component and close the directory it is in. A close that fails leaves the new descriptor open
        and the old one named. */
    method Enter(fd: nat, name: string) returns (s: Step, last: nat)
      requires Valid() && IsDir(fd) && CloseParent !in failed
      modifies this`calls, this`failed, this`openFds, this`nextFd, this`badCloses
      ensures Valid() && !(s.Return? && s.out.Done?)
      ensures s.Go? ==> IsDir(last) && tree.Child(old(openFds[fd]), name) == Some(openFds[last])
      ensures s.Go? ==> last !in old(openFds) && openFds - {last} == old(openFds) - {fd}
      ensures !s.Go? ==> last == fd
      ensures !s.Go? && CloseParent !in failed ==> openFds == old(openFds)
      ensures CloseParent in failed ==> s.Raise? && fd !in openFds
      ensures old(failed) <= failed <= old(failed) + {CloseParent, Elsewhere}
      ensures badCloses == old(badCloses)
      ensures NeverFails() ==> failed == old(failed)
      ensures forall e :: FailsWith(e) && old(failed) == {} && failed != {} ==> s == Raise(e)
      ensures failed == {} ==> AdvanceAnswer(tree, tree, old(openFds[fd]), name, false, s)
    {
      last := fd;
      var child := OpenDir(Entry(fd, name));
      if child.Err? {
        if child.errno in {ELOOP, ENOTDIR, ENOENT} {
          s := ComponentError(fd, name);
          return s, fd;
        }
        return Raise(child.errno), fd;
      }
      var closed := Close(fd, CloseParent);
      if closed.Err? { return Raise(closed.errno), fd; }
      return Go, child.value;
    }

    /** One component of the way: make it if asked to, then enter it. */
    method Advance(fd: nat, name: string, parents: bool) returns (s: Step, last: nat)
      requires Valid() && IsDir(fd) && CloseParent !in failed
      modifies this`calls, this`failed, this`tree, this`nextInode, this`openFds, this`nextFd, this`badCloses
      ensures Valid() && Extends(old(tree), tree) && !(s.Return? && s.out.Done?)
      ensures forall k :: k in tree.entries && k !in old(tree).entries ==> k == (old(openFds[fd]), name)
      ensures s.Go? ==> IsDir(last) && tree.Child(old(openFds[fd]), name) == Some(openFds[last])
      ensures s.Go? ==> tree == old(tree) || FreshDir(old(tree), tree, openFds[last])
      ensures s.Go? ==> last !in old(openFds) && openFds - {last} == old(openFds) - {fd}
      ensures !s.Go? ==> last == fd
      ensures !s.Go? && CloseParent !in failed ==> openFds == old(openFds)
      ensures CloseParent in failed ==> s.Raise? && fd !in openFds
      ensures old(failed) <= failed <= old(failed) + {CloseParent, Elsewhere}
      ensures badCloses == old(badCloses)
      ensures NeverFails() ==> failed == old(failed)
      ensures forall e :: FailsWith(e) && old(failed) == {} && failed != {} ==> s == Raise(e)
      ensures failed == {} ==> AdvanceAnswer(old(tree), tree, old(openFds[fd]), name, parents, s)
    {
      if parents {
        var made := Mkdir(fd, name);
        if made.Err? && made.errno != EEXIST { return Raise(made.errno), fd; }
      }
      s, last := Enter(fd, name);
    }

    /** A name that is already taken. */
    method Taken(fd: nat, name: string) returns (s: Step)
      requires Valid() && fd in openFds
      modifies this`calls, this`failed
      ensures Valid() && !s.Go? && !(s.Return? && s.out.Done?)
      ensures failed == old(failed) || failed == old(failed) + {Elsewhere}
      ensures failed == {} && Entry(fd, name).Some? ==>
                s == Return(Failed(if IsLink(tree, Entry(fd, name).value) then SymlinkRefused else AlreadyExists))
      ensures NeverFails() ==> failed == old(failed)
      ensures forall e :: FailsWith(e) && old(failed) == {} && failed != {} ==> s == Raise(e)
    {
      var there := Stat(fd, name);
      match there
      case Ok(inode) => return Return(Failed(if IsLink(tree, inode) then SymlinkRefused else AlreadyExists));
      case Err(e) => return if e == ENOENT then Return(Failed(FilesystemError)) else Raise(e);
    }

    /** The last name as a folder. */
    method LeafFolder(fd: nat, name: string) returns (s: Step)
      requires Valid() && IsDir(fd)
      modifies this`calls, this`failed, this`tree, this`nextInode, this`openFds, this`nextFd, this`badCloses
      ensures Valid() && Extends(old(tree), tree) && !s.Go?
      ensures openFds == old(openFds)
      ensures forall k :: k in tree.entries && k !in old(tree).entries ==> k == (openFds[fd], name)
      ensures badCloses == old(badCloses)
      ensures failed == old(failed) || failed == old(failed) + {Elsewhere}
      ensures s.Return? && s.out.Done? ==>
                tree.Child(openFds[fd], name).Some? && (s.out.created <==> (openFds[fd], name) !in old(tree).entries)
      ensures failed == {} ==>
                s == Return(LeafOutcome(old(tree), openFds[fd], name, None))
                && (!s.out.Done? ==> tree == old(tree))
      ensures NeverFails() ==> failed == old(failed)
      ensures forall e :: FailsWith(e) && old(failed) == {} && failed != {} ==> s == Raise(e)
    {
      var made := Mkdir(fd, name);
      if made.Ok? { return Return(Done(true)); }
      if made.errno != EEXIST { return Raise(made.errno); }
      var child := OpenDir(Entry(fd, name));
      if child.Ok? {
        var closed := Close(child.value, Elsewhere);
        if closed.Err? { return Raise(closed.errno); }
        return Return(Done(false));
      }
      if child.errno !in {ELOOP, ENOTDIR} { return Raise(child.errno); }
      s := Taken(fd, name);
    }

    /** After a failed write: close what is still open and remove the file this call created. */
    method Discard(fd: nat, name: string, file: nat, adopted: bool, inode: nat, errno: Errno) returns (s: Step)
      requires Valid() && fd in openFds && (!adopted ==> file in openFds && file != fd)
      modifies this`calls, this`failed, this`tree, this`openFds, this`badCloses
      ensures Valid() && s.Raise?
      ensures openFds == if adopted then old(openFds) else old(openFds) - {file}
      ensures badCloses == old(badCloses)
      ensures failed == old(failed) || failed == old(failed) + {Elsewhere}
      ensures tree == old(tree) || (tree == old(tree).Minus(openFds[fd], name) && old(Entry(fd, name)) == Some(inode))
      ensures NeverFails() ==> failed == old(failed)
      ensures forall e :: FailsWith(e) && errno == e ==> s == Raise(e)
    {
      if !adopted {
        var closed := Close(file, Elsewhere);
        if closed.Err? { return Raise(closed.errno); }
      }
      var current := Stat(fd, name);
      if current.Err? { return Raise(if current.errno == ENOENT then errno else current.errno); }
      if current.value == inode {
        var gone := Unlink(fd, name);
        if gone.Err? && gone.errno != ENOENT { return Raise(gone.errno); }
      }
      return Raise(errno);
    }

    /** The text of a file this call created; on failure the file is discarded. */
    method Fill(fd: nat, name: string, file: nat, inode: nat, content: string) returns (s: Step)
      requires Valid() && fd in openFds && file in openFds && file != fd && openFds[file] == inode
                && inode in tree.texts
      modifies this`calls, this`failed, this`tree, this`openFds, this`badCloses
      ensures Valid() && !s.Go?
      ensures openFds == old(openFds) - {file} && badCloses == old(badCloses)
      ensures failed == old(failed) || failed == old(failed) + {Elsewhere}
      ensures exists text :: FilledWith(old(tree), tree, openFds[fd], name, inode, text, s.Return?)
      ensures s.Return? ==> s.out == Done(true) && tree.texts[inode] == content
      ensures s.Return? ==> failed == old(failed)
      ensures failed == {} ==> s.Return?
      ensures NeverFails() ==> failed == old(failed)
      ensures forall e :: FailsWith(e) && s.Raise? ==> s == Raise(e)
    {
      var written, adopted := WriteAll(file, content);
      ghost var text := tree.texts[inode];
      assert old(tree).texts == old(tree).texts[inode := old(tree).texts[inode]];
      if written.Ok? {
        s := Return(Done(true));
      } else {
        s := Discard(fd, name, file, adopted, inode, written.errno);
      }
      assert FilledWith(old(tree), tree, openFds[fd], name, inode, text, s.Return?);
    }

    /** The last name as a new file. */
    method LeafFile(fd: nat, name: string, content: string) returns (s: Step)
      requires Valid() && IsDir(fd) && FstatNew !in failed
      modifies this`calls, this`failed, this`tree, this`nextInode, this`openFds, this`nextFd, this`badCloses
      ensures Valid() && Extends(old(tree), tree) && !s.Go?
      ensures forall k :: k in tree.entries && k !in old(tree).entries ==> k == (old(openFds[fd]), name)
      ensures badCloses == old(badCloses)
      ensures old(failed) <= failed <= old(failed) + {FstatNew, Elsewhere}
      ensures FstatNew !in failed ==> openFds == old(openFds)
      ensures FstatNew in failed ==> exists f: nat ::
                f !in old(openFds) && f in openFds
                && openFds - {f} == old(openFds)
      ensures s.Return? && s.out.Done? ==>
                s.out.created && IsFile(tree, old(openFds[fd]), name, content)
                && (old(openFds[fd]), name) !in old(tree).entries
      ensures NeverFails() ==> failed == old(failed)
      ensures forall e :: FailsWith(e) && old(failed) == {} && failed != {} ==> s == Raise(e)
      ensures failed == {} ==>
                s == Return(LeafOutcome(old(tree), old(openFds[fd]), name, Some(content)))
                && (!s.out.Done? ==> tree == old(tree))
    {
      var file := OpenNew(fd, name);
      if file.Err? {
        if file.errno != EEXIST { return Raise(file.errno); }
        s := Taken(fd, name);
        return s;
      }
      var f := file.value;
      assert f !in old(openFds) && openFds - {f} == old(openFds);
      var info := Fstat(f);
      if info.Err? { return Raise(info.errno); }
      s := Fill(fd, name, f, info.value, content);
      Created(old(tree), openFds[fd], name, info.value, tree, s.Return?, content);
    }

    ghost predicate Lossless()
      reads this
    {
      FstatNew !in failed && CloseParent !in failed
    }

    /** The last name, as a folder or as a file. */
    method Leaf(fd: nat, name: string, content: Option<string>) returns (s: Step)
      requires Valid() && IsDir(fd) && Lossless()
      modifies this`calls, this`failed, this`tree, this`nextInode, this`openFds, this`nextFd, this`badCloses
      ensures Valid() && Extends(old(tree), tree) && !s.Go?
      ensures forall k :: k in tree.entries && k !in old(tree).entries ==> k == (old(openFds[fd]), name)
      ensures badCloses == old(badCloses) && old(failed) <= failed <= old(failed) + {FstatNew, Elsewhere}
      ensures fd in openFds
      ensures Lossless() ==> openFds == old(openFds)
      ensures !Lossless() ==> exists f: nat :: f in openFds && f !in old(openFds)
      ensures s.Return? && s.out.Done? ==> LeafMade(old(tree), tree, old(openFds[fd]), name, content, s.out.created)
      ensures NeverFails() ==> failed == old(failed)
      ensures forall e :: FailsWith(e) && old(failed) == {} && failed != {} ==> s == Raise(e)
      ensures failed == {} ==>
                s == Return(LeafOutcome(old(tree), old(openFds[fd]), name, content))
                && (!s.out.Done? ==> tree == old(tree))
    {
      if content.None? {
        s := LeafFolder(fd, name);
      } else {
        s := LeafFile(fd, name, content.value);
      }
    }

    /** Every component but the last. */
    method Down(fd: nat, ghost root: nat, parts: seq<string>, parents: bool, ghost content: Option<string>)
            returns (s: Step, last: nat)
      requires Valid() && IsDir(fd) && openFds[fd] == root && parts != [] && Lossless()
      modifies this`calls, this`failed, this`tree, this`nextInode, this`openFds, this`nextFd, this`badCloses
      ensures Valid() && !(s.Return? && s.out.Done?)
      ensures Extends(old(tree), tree) && Confined(old(tree), tree, root, parts)
      ensures badCloses == old(badCloses) && old(failed) <= failed <= old(failed) + {CloseParent, Elsewhere}
      ensures Lossless() ==> last in openFds && openFds - {last} == old(openFds) - {fd}
      ensures CloseParent in failed ==> last !in openFds
      ensures s.Go? ==> Lossless() && IsDir(last) && tree.Walk(root, parts[..|parts| - 1]) == Some(openFds[last])
      ensures s.Go? ==> tree == old(tree) || FreshDir(old(tree), tree, openFds[last])
      ensures NeverFails() ==> failed == old(failed)
      ensures forall e :: FailsWith(e) && old(failed) == {} && failed != {} ==> s == Raise(e)
      ensures failed == {} ==>
                if s.Go? then OnCourse(old(tree), tree, root, openFds[last], parts, |parts| - 1, parents, content)
                else s == Return(OutcomeFrom(old(tree), root, parts, parents, content)) && tree == old(tree)
    {
      hide Extends, Confined, OutcomeFrom, OnCourse, Tree.Walk, AdvanceAnswer, FreshDir;
      Started(tree, root, parts, parents, content);
      last := fd;
      s := Go;
      var i := 0;
      while i < |parts| - 1
        invariant 0 <= i <= |parts| - 1 && s.Go?
        invariant Valid() && IsDir(last) && Lossless()
        invariant openFds - {last} == old(openFds) - {fd} && badCloses == old(badCloses)
        invariant Extends(old(tree), tree) && Confined(old(tree), tree, root, parts)
        invariant tree.Walk(root, parts[..i]) == Some(openFds[last])
        invariant tree == old(tree) || FreshDir(old(tree), tree, openFds[last])
        invariant old(failed) <= failed <= old(failed) + {CloseParent, Elsewhere}
        invariant NeverFails() ==> failed == old(failed)
        invariant forall e :: FailsWith(e) && old(failed) == {} ==> failed == {}
        invariant failed == {} ==>
                    OnCourse(old(tree), tree, root, openFds[last], parts, i, parents, content)
      {
        ghost var t, d := tree, openFds[last];
        s, last := Advance(last, parts[i], parents);
        OneFurther(old(tree), t, tree, root, parts, i, d);
        if s.Go? { StaysFresh(old(tree), t, tree, d, parts[i], openFds[last]); }
        if failed == {} { StaysOnCourse(old(tree), t, tree, root, d, parts, i, parents, content, s); }
        if !s.Go? { return; }
        i := i + 1;
      }
    }

    /** The walk below an open root. `last` is the descriptor the caller closes. */
    method Descend(fd: nat, ghost root: nat, parts: seq<string>, parents: bool, content: Option<string>)
            returns (s: Step, last: nat)
      requires Valid() && IsDir(fd) && openFds[fd] == root && parts != [] && Lossless()
      modifies this`calls, this`failed, this`tree, this`nextInode, this`openFds, this`nextFd, this`badCloses
      ensures Valid() && !s.Go?
      ensures Extends(old(tree), tree) && Confined(old(tree), tree, root, parts)
      ensures badCloses == old(badCloses) && old(failed) <= failed && CloseLast !in failed - old(failed)
      ensures Lossless() ==> last in openFds && openFds - {last} == old(openFds) - {fd}
      ensures CloseParent in failed ==> last !in openFds
      ensures FstatNew in failed && CloseParent !in failed ==>
                last in openFds && exists f: nat :: f in openFds && f != last && f !in old(openFds) - {fd}
      ensures s.Return? && s.out.Done? ==> Reached(old(tree), tree, root, parts, content, s.out.created)
      ensures NeverFails() ==> failed == old(failed)
      ensures forall e :: FailsWith(e) && old(failed) == {} && failed != {} ==> s == Raise(e)
      ensures failed == {} ==>
                s == Return(OutcomeFrom(old(tree), root, parts, parents, content))
                && (!s.out.Done? ==> tree == old(tree))
    {
      hide Extends, Confined, OutcomeFrom, LeafOutcome, OnCourse, Tree.Walk, Reached, LeafMade, FreshDir;
      s, last := Down(fd, root, parts, parents, content);
      if !s.Go? { return; }
      ghost var t, d, fds := tree, openFds[last], openFds;
      var leaf := parts[|parts| - 1];
      s := Leaf(last, leaf, content);
      OneFurther(old(tree), t, tree, root, parts, |parts| - 1, d);
      if s.Return? && s.out.Done? { LeafReached(old(tree), t, tree, root, parts, d, content, s.out.created); }
      if failed == {} { LastOnCourse(old(tree), t, root, d, parts, parents, content); }
      if FstatNew in failed {
        ghost var f: nat :| f in openFds && f !in fds;
        assert f !in fds - {last};
      }
    }

    /** The steps of _create; Create restates the tests of the path on its characters. */
    method TryCreate(root: Option<nat>, path: string, parents: bool, content: Option<string>) returns (out: Outcome)
      requires Valid() && failed == {} && (root.Some? ==> root.value in tree.kinds)
      modifies this`calls, this`failed, this`tree, this`nextInode, this`openFds, this`nextFd, this`badCloses
      ensures Valid() && Extends(old(tree), tree)
      ensures if root.Some? then Confined(old(tree), tree, root.value, Split(path)) else tree == old(tree)
      ensures if GoodPath(path) then failed == {} ==> out != Failed(InvalidPath)
              else out == Failed(InvalidPath) && tree == old(tree)
      ensures failed == {} ==>
                (out == Failed(DeviceYaml) <==> GoodPath(path) && content.Some? && IsDeviceYaml(path))
      ensures out.Done? ==>
                root.Some?
                && Reached(old(tree), tree, root.value, Split(path), content, out.created)
      ensures openFds == old(openFds) && badCloses == old(badCloses) <==> Lossless()
      ensures failed == {} ==>
                out == PathOutcome(old(tree), root, path, parents, content)
                && (!out.Done? ==> tree == old(tree))
      ensures NeverFails() ==> failed == {}
      ensures CloseLast in failed || CloseParent in failed ==> out == Threw
      ensures FailsWith(OtherError) && failed != {} ==>
                out == if CloseLast in failed || CloseParent in failed then Threw else Failed(FilesystemError)
      ensures FailsWith(NotOsError) && failed != {} ==> out == Threw
    {
      hide Extends, Confined, OutcomeFrom, GoodPath, IsDeviceYaml, Reached, Split, Tree.Walk;
      var parts := Split(path);
      if root.Some? { Started(tree, root.value, parts, parents, content); }
      Unchanged(tree);
      if !GoodPath(path) { return Failed(InvalidPath); }
      if content.Some? && IsDeviceYaml(path) { return Failed(DeviceYaml); }
      var r := OpenDir(root);
      if r.Err? {
        if r.errno == ENOENT { return Failed(RootMissing); }
        if r.errno in {ELOOP, ENOTDIR} { return Failed(SymlinkRefused); }
        return Escaped(r.errno);
      }
      var s, last := Descend(r.value, root.value, parts, parents, content);
      out := if s.Return? then s.out else Escaped(s.errno);
      ghost var fds := openFds;
      var closed := Close(last, CloseLast);
      if closed.Err? { out := Threw; }
    }

    /** _create: a pure extension of the tree confined to the path, whatever fails. Every descriptor opened
        is closed once unless fstat of the new file or the close of a directory on the way fails. Where no
        call fails the answer is PathOutcome and anything but success leaves the tree alone. A failure the
        walk has no use for is reported as such, and escapes when it is that of a close of a directory. */
    method Create(root: Option<nat>, path: string, parents: bool, content: Option<string>) returns (out: Outcome)
      requires Valid() && failed == {} && (root.Some? ==> root.value in tree.kinds)
      modifies this`calls, this`failed, this`tree, this`nextInode, this`openFds, this`nextFd, this`badCloses
      ensures Valid() && Extends(old(tree), tree)
      ensures if root.Some? then Confined(old(tree), tree, root.value, Split(path)) else tree == old(tree)
      ensures if && path != "" && '\\' !in path && '\0' !in path
                 && path[0] !in {'.', '/'} && path[|path| - 1] != '/'
                 && forall k :: 0 < k < |path| && path[k - 1] == '/' ==> path[k] !in {'.', '/'}
              then failed == {} ==> out != Failed(InvalidPath)
              else out == Failed(InvalidPath) && tree == old(tree)
      ensures failed == {} ==>
                (out == Failed(DeviceYaml) <==>
                 && out != Failed(InvalidPath) && content.Some? && '/' !in path
                 && (|| (|path| >= 5 && Lower(path)[|path| - 5..] == ".yaml")
                     || (|path| >= 4 && Lower(path)[|path| - 4..] == ".yml")))
      ensures out.Done? ==>
                root.Some?
                && Reached(old(tree), tree, root.value, Split(path), content, out.created)
      ensures openFds == old(openFds) && badCloses == old(badCloses) <==> Lossless()
      ensures failed == {} ==>
                out == PathOutcome(old(tree), root, path, parents, content)
                && (!out.Done? ==> tree == old(tree))
      ensures NeverFails() ==> failed == {}
      ensures CloseLast in failed || CloseParent in failed ==> out == Threw
      ensures FailsWith(OtherError) && failed != {} ==>
                out == if CloseLast in failed || CloseParent in failed then Threw else Failed(FilesystemError)
      ensures FailsWith(NotOsError) && failed != {} ==> out == Threw
    {
      hide Extends, Confined, GoodPath, IsDeviceYaml, Reached, Split, PathOutcome;
      GoodPathText(path);
      DeviceYamlText(path);
      out := TryCreate(root, path, parents, content);
    }
  }

  /** The handler around the walk: an OSError becomes a stable failure, anything else escapes. */
  function Escaped(e: Errno): Outcome {
    if e == NotOsError then Threw else if e == ELOOP then Failed(SymlinkRefused) else Failed(FilesystemError)
  }

  lemma Unchanged(t: Tree)
    ensures Extends(t, t)
  {
  }

  /** A directory made on the way: new, and still empty. */
  ghost predicate FreshDir(t: Tree, u: Tree, d: nat) { d !in t.kinds && forall x :: (d, x) !in u.entries }

  lemma StaysFresh(t: Tree, u: Tree, w: Tree, d: nat, name: string, child: nat)
    requires Extends(t, u) && (u == t || FreshDir(t, u, d))
    requires (w == u || FreshDir(u, w, child)) && w.Child(d, name) == Some(child)
    ensures w == t || FreshDir(t, w, child)
  {
  }

  lemma Started(t: Tree, root: nat, parts: seq<string>, parents: bool, content: Option<string>)
    requires parts != []
    ensures Extends(t, t) && Confined(t, t, root, parts) && t.Walk(root, parts[..0]) == Some(root)
    ensures OnCourse(t, t, root, root, parts, 0, parents, content)
  {
    assert parts[0..] == parts;
  }

  lemma OneFurther(t: Tree, u: Tree, w: Tree, root: nat, parts: seq<string>, i: int, d: nat)
    requires 0 <= i < |parts| && Extends(t, u) && Confined(t, u, root, parts) && Extends(u, w)
    requires u.Walk(root, parts[..i]) == Some(d)
    requires forall k :: k in w.entries && k !in u.entries ==> k == (d, parts[i])
    ensures Extends(t, w) && Confined(t, w, root, parts)
    ensures w.Walk(root, parts[..i]) == Some(d)
    ensures w.Walk(root, parts[..i + 1]) == w.Child(d, parts[i])
  {
    hide Confined, Tree.Child;
    ConfinedGrows(t, u, w, root, parts, i, d);
    WalkExtends(u, w, root, parts[..i]);
    assert parts[..i + 1][..i] == parts[..i];
  }

  ghost predicate LeafMade(t: Tree, u: Tree, d: nat, name: string, content: Option<string>, created: bool) {
    && (created <==> (d, name) !in t.entries)
    && match content
       case None => u.Child(d, name).Some?
       case Some(text) => created && IsFile(u, d, name, text)
  }

  lemma LeafReached(t: Tree, u: Tree, w: Tree, root: nat, parts: seq<string>, d: nat, content: Option<string>,
          created: bool)
    requires parts != [] && t.Valid() && Extends(t, u) && (u == t || FreshDir(t, u, d))
    requires u.Walk(root, parts[..|parts| - 1]) == Some(d) == w.Walk(root, parts[..|parts| - 1])
    requires LeafMade(u, w, d, parts[|parts| - 1], content, created)
    ensures Reached(t, w, root, parts, content, created)
  {
  }

  lemma LastOnCourse(t: Tree, u: Tree, root: nat, d: nat, parts: seq<string>, parents: bool, content: Option<string>)
    requires parts != [] && OnCourse(t, u, root, d, parts, |parts| - 1, parents, content)
    ensures var out := LeafOutcome(u, d, parts[|parts| - 1], content);
            out == OutcomeFrom(t, root, parts, parents, content) && (u == t || out == Done(true))
  {
  }

  /** Success: the names lead through real directories to the leaf asked for, and `created` says whether it
      is new. */
  ghost predicate Reached(t: Tree, u: Tree, root: nat, parts: seq<string>, content: Option<string>, created: bool)
    requires parts != []
  {
    var up, leaf := u.Walk(root, parts[..|parts| - 1]), parts[|parts| - 1];
    && up.Some?
    && (created <==> (up.value, leaf) !in t.entries)
    && match content
       case None => u.Child(up.value, leaf).Some?
       case Some(text) => created && IsFile(u, up.value, leaf, text)
  }

  /** Nothing failed so far: the answer is still the one from here, and until a directory was made nothing
      has changed. */
  ghost predicate OnCourse(t: Tree, u: Tree, root: nat, d: nat, parts: seq<string>, i: int, parents: bool,
          content: Option<string>)
    requires 0 <= i < |parts|
  {
    && OutcomeFrom(u, d, parts[i..], parents, content) == OutcomeFrom(t, root, parts, parents, content)
    && (u == t || OutcomeFrom(u, d, parts[i..], parents, content) == Done(true))
  }

  lemma StaysOnCourse(t: Tree, u: Tree, w: Tree, root: nat, d: nat, parts: seq<string>, i: int, parents: bool,
          content: Option<string>, s: Step)
    requires 0 <= i < |parts| - 1 && OnCourse(t, u, root, d, parts, i, parents, content)
    requires AdvanceAnswer(u, w, d, parts[i], parents, s)
    ensures s.Go? ==> w.Child(d, parts[i]).Some? && OnCourse(t, w, root, w.Child(d, parts[i]).value, parts, i + 1,
              parents, content)
    ensures !s.Go? ==> s == Return(OutcomeFrom(t, root, parts, parents, content)) && w == t
  {
    assert parts[i..][0] == parts[i] && parts[i..][1..] == parts[i + 1..];
  }

  /** A new file's text is written; unless it is kept, its name may be gone again. */
  ghost predicate FilledWith(t: Tree, u: Tree, d: nat, name: string, inode: nat, text: string, keep: bool) {
    var full := t.(texts := t.texts[inode := text]);
    u == full || (!keep && u == full.Minus(d, name))
  }

  lemma Created(t: Tree, d: nat, name: string, inode: nat, u: Tree, kept: bool, content: string)
    requires t.Valid() && (d, name) !in t.entries && inode !in t.kinds
    requires exists text :: FilledWith(t.Plus(d, name, inode, Regular), u, d, name, inode, text, kept)
    requires kept ==> inode in u.texts && u.texts[inode] == content
    ensures Extends(t, u)
    ensures forall k :: k in u.entries && k !in t.entries ==> k == (d, name)
    ensures kept ==> IsFile(u, d, name, content)
  {
  }

  predicate IsFile(t: Tree, d: nat, name: string, content: string) {
    && (d, name) in t.entries
    && var inode := t.entries[(d, name)];
       inode in t.kinds && t.kinds[inode] == Regular && inode in t.texts && t.texts[inode] == content
  }

  /** One component when nothing fails: it is there and a directory, or it is made, or the walk ends. */
  ghost predicate AdvanceAnswer(t: Tree, u: Tree, d: nat, name: string, parents: bool, s: Step) {
    if t.Child(d, name).Some? then s.Go? && u == t
    else if (d, name) in t.entries then
      u == t && s == Return(Failed(if IsLink(t, t.entries[(d, name)]) then SymlinkRefused else NotADirectory))
    else if parents then
      s.Go? && u.Child(d, name).Some? && forall x :: (u.Child(d, name).value, x) !in u.entries
    else u == t && s == Return(Failed(ParentNotFound))
  }
}
