/** The import rewriter of scripts/vendor_fastmcp.py on parsed import statements, with the meaning of
    import statements as what they bind and what they load. */
module ImportRewrite {
  import opened Wrappers

  type Dotted = p: seq<string> | p != [] witness ["mcp"]

  datatype Alias = Alias(name: Dotted, asname: Option<string>)

  /** A member of a from-import and the name it is bound to. */
  datatype Member = Named(name: string, asname: Option<string>) | Star

  datatype Stmt =
    | Import(names: seq<Alias>)
    | ImportFrom(level: nat, modulePath: seq<string>, members: seq<Member>)

  const VENDOR_PREFIX: Dotted := ["custom_components", "esphome_mcp", "_vendor"]
  const VENDORED_TOP_LEVEL := {"fastmcp", "mcp", "mcp_types"}

  function Vendored(path: seq<string>): Dotted { VENDOR_PREFIX + path }

  predicate IsVendored(path: seq<string>) { path != [] && path[0] in VENDORED_TOP_LEVEL }

  // ---- the rewriter ---------------------------------------------------------------------------------

  /** The statements one alias of a rewritten import becomes. `import mcp.types` binds `mcp`, so the
      vendored form binds it too. */
  function RewriteAlias(a: Alias): seq<Stmt> {
    if !IsVendored(a.name) then [Import([a])]
    else if a.asname.Some? then [Import([Alias(Vendored(a.name), a.asname)])]
    else
      (if |a.name| == 1 then [] else [Import([Alias(Vendored(a.name), None)])])
      + [ImportFrom(0, VENDOR_PREFIX, [Named(a.name[0], None)])]
  }

  function RewriteAliases(names: seq<Alias>): seq<Stmt> {
    if names == [] then [] else RewriteAliases(names[..|names| - 1]) + RewriteAlias(names[|names| - 1])
  }

  predicate AnyVendored(names: seq<Alias>) { exists k :: 0 <= k < |names| && IsVendored(names[k].name) }

  /** The statements a statement is replaced by; itself when nothing in it is vendored. */
  function RewriteStmt(s: Stmt): seq<Stmt> {
    match s
    case Import(names) => if AnyVendored(names) then RewriteAliases(names) else [s]
    case ImportFrom(level, modulePath, members) =>
      if level == 0 && IsVendored(modulePath) then [ImportFrom(0, Vendored(modulePath), members)] else [s]
  }

  function RewriteProgram(program: seq<Stmt>): seq<Stmt> {
    if program == [] then []
    else RewriteProgram(program[..|program| - 1]) + RewriteStmt(program[|program| - 1])
  }

  /** _rewrite_import: the replacement statements, or None to leave the statement alone. */
  method RewriteImport(names: seq<Alias>) returns (replacement: Option<seq<Stmt>>)
    ensures replacement.None? <==> !AnyVendored(names)
    ensures RewriteStmt(Import(names)) == if replacement.Some? then replacement.value else [Import(names)]
  {
    if !AnyVendored(names) { return None; }
    var statements: seq<Stmt> := [];
    for i := 0 to |names|
      invariant statements == RewriteAliases(names[..i])
    {
      assert names[..i + 1][..i] == names[..i];
      var a := names[i];
      if !IsVendored(a.name) {
        statements := statements + [Import([a])];
      } else if a.asname.Some? {
        statements := statements + [Import([Alias(Vendored(a.name), a.asname)])];
      } else {
        if |a.name| != 1 {
          statements := statements + [Import([Alias(Vendored(a.name), None)])];
        }
        statements := statements + [ImportFrom(0, VENDOR_PREFIX, [Named(a.name[0], None)])];
      }
    }
    assert names[..|names|] == names;
    replacement := Some(statements);
  }

  /** What `import mcp.types` becomes, spelled out, and which packages are concerned at all. */
  lemma RewritingSpelledOut(path: seq<string>)
    ensures RewriteStmt(Import([Alias(["mcp", "types"], None)])) ==
            [Import([Alias(["custom_components", "esphome_mcp", "_vendor", "mcp", "types"], None)]),
             ImportFrom(0, ["custom_components", "esphome_mcp", "_vendor"], [Named("mcp", None)])]
    ensures IsVendored(path) <==> path != [] && (path[0] == "fastmcp" || path[0] == "mcp" || path[0] == "mcp_types")
  {
    var a := Alias(["mcp", "types"], None);
    assert [a][..0] == [] && IsVendored([a][0].name);
    assert RewriteAliases([a]) == RewriteAliases([a][..0]) + RewriteAlias(a);
    assert Vendored(a.name) == ["custom_components", "esphome_mcp", "_vendor", "mcp", "types"];
  }

  // ---- what is left to rewrite -----------------------------------------------------------------------

  function VendoredNames(names: seq<Alias>): seq<Dotted> {
    if names == [] then []
    else
      var last := names[|names| - 1];
      VendoredNames(names[..|names| - 1]) + if IsVendored(last.name) then [last.name] else []
  }

  function RemainingIn(s: Stmt): seq<Dotted> {
    match s
    case Import(names) => VendoredNames(names)
    case ImportFrom(level, modulePath, _) => if level == 0 && IsVendored(modulePath) then [modulePath] else []
  }

  /** remaining_vendored_imports. */
  function Remaining(program: seq<Stmt>): seq<Dotted> {
    if program == [] then []
    else Remaining(program[..|program| - 1]) + RemainingIn(program[|program| - 1])
  }

  lemma {:induction false} NothingVendored(names: seq<Alias>)
    ensures VendoredNames(names) == [] <==> !AnyVendored(names)
  {
    if names != [] {
      NothingVendored(names[..|names| - 1]);
      if AnyVendored(names) {
        var k :| 0 <= k < |names| && IsVendored(names[k].name);
        assert k < |names| - 1 ==> IsVendored(names[..|names| - 1][k].name);
      }
      if AnyVendored(names[..|names| - 1]) {
        var k :| 0 <= k < |names| - 1 && IsVendored(names[..|names| - 1][k].name);
        assert IsVendored(names[k].name);
      }
    }
  }

  lemma {:induction false} RemainingConcat(a: seq<Stmt>, b: seq<Stmt>)
    ensures Remaining(a + b) == Remaining(a) + Remaining(b)
  {
    hide RemainingIn;
    if b == [] {
      assert a + b == a;
    } else {
      var x := RemainingIn(b[|b| - 1]);
      assert Remaining(a) + Remaining(b) == Remaining(a) + Remaining(b[..|b| - 1]) + x;
      RemainingConcat(a, b[..|b| - 1]);
      assert (a + b)[..|a + b| - 1] == a + b[..|b| - 1];
    }
  }

  lemma RemainingOne(s: Stmt)
    ensures Remaining([s]) == RemainingIn(s)
  {
    assert [s][..0] == [];
  }

  /** A statement that names no vendored module is its own rewriting. */
  lemma CleanIsFixed(s: Stmt)
    ensures RemainingIn(s) == [] <==> RewriteStmt(s) == [s]
  {
    hide VendoredNames, RewriteAliases;
    match s
    case Import(names) =>
      NothingVendored(names);
      if AnyVendored(names) {
        RewritingRemoves(s);
        RemainingOne(s);
      }
    case ImportFrom(level, modulePath, members) =>
      if level == 0 && IsVendored(modulePath) {
        assert |Vendored(modulePath)| != |modulePath|;
        assert RewriteStmt(s)[0] != s;
      }
  }

  lemma {:induction false} AliasRewritingRemoves(names: seq<Alias>)
    ensures Remaining(RewriteAliases(names)) == []
  {
    if names != [] {
      AliasRewritingRemoves(names[..|names| - 1]);
      OneAliasRemoves(names[|names| - 1]);
      RemainingConcat(RewriteAliases(names[..|names| - 1]), RewriteAlias(names[|names| - 1]));
    }
  }

  lemma OneImport(a: Alias)
    ensures VendoredNames([a]) == if IsVendored(a.name) then [a.name] else []
  {
    assert [a][..0] == [];
  }

  lemma OneAliasRemoves(a: Alias)
    ensures Remaining(RewriteAlias(a)) == []
  {
    var out := RewriteAlias(a);
    assert !IsVendored(Vendored(a.name)) && !IsVendored(VENDOR_PREFIX);
    OneImport(a);
    OneImport(Alias(Vendored(a.name), a.asname));
    assert out[..|out| - 1] == [] || out[..|out| - 1] == [out[0]];
    assert [out[0]][..0] == [];
    assert Remaining([out[0]]) == RemainingIn(out[0]);
  }

  lemma RewritingRemoves(s: Stmt)
    ensures Remaining(RewriteStmt(s)) == []
  {
    match s
    case Import(names) =>
      if AnyVendored(names) {
        AliasRewritingRemoves(names);
      } else {
        NothingVendored(names);
        assert [s][..0] == [];
      }
    case ImportFrom(level, modulePath, members) =>
      assert !IsVendored(Vendored(modulePath));
      assert [RewriteStmt(s)[0]][..0] == [];
  }

  /** No absolute import of a vendored package is left behind. */
  lemma {:induction false} NothingRemains(program: seq<Stmt>)
    ensures Remaining(RewriteProgram(program)) == []
  {
    if program != [] {
      NothingRemains(program[..|program| - 1]);
      RewritingRemoves(program[|program| - 1]);
      RemainingConcat(RewriteProgram(program[..|program| - 1]), RewriteStmt(program[|program| - 1]));
    }
  }

  /** A program is its own rewriting exactly when it imports no vendored package. */
  lemma {:induction false} CleanProgramIsFixed(program: seq<Stmt>)
    requires Remaining(program) == []
    ensures RewriteProgram(program) == program
  {
    hide RemainingIn, RewriteStmt;
    if program != [] {
      CleanProgramIsFixed(program[..|program| - 1]);
      CleanIsFixed(program[|program| - 1]);
      assert program == program[..|program| - 1] + [program[|program| - 1]];
    }
  }

  /** Rewriting twice is rewriting once. */
  lemma RewriteIsIdempotent(program: seq<Stmt>)
    ensures RewriteProgram(RewriteProgram(program)) == RewriteProgram(program)
  {
    NothingRemains(program);
    CleanProgramIsFixed(RewriteProgram(program));
  }

  // ---- what imports mean --------------------------------------------------------------------------------

  datatype Value = Module(path: Dotted) | Attribute(path: Dotted, name: string)

  /** The names a module has bound and the modules that are loaded. */
  datatype World = World(names: map<string, Value>, loaded: set<Dotted>)

  /** Importing a.b.c loads a, a.b and a.b.c. */
  function Prefixes(path: seq<string>): set<Dotted> {
    if path == [] then {} else Prefixes(path[..|path| - 1]) + {path}
  }

  /** What a from-import finds in a module: the names a star takes, and the members that are submodules. */
  datatype Library = Library(exports: Dotted -> set<string>, isSubmodule: (Dotted, string) -> bool) {

    /** The vendored tree is the original tree moved under the prefix, whose package holds the vendored
        packages. */
    ghost predicate Relocated() {
      && (forall p: Dotted :: IsVendored(p) ==> exports(Vendored(p)) == exports(p))
      && (forall p: Dotted, n :: IsVendored(p) ==> isSubmodule(Vendored(p), n) == isSubmodule(p, n))
      && (forall n | n in VENDORED_TOP_LEVEL :: isSubmodule(VENDOR_PREFIX, n))
    }

    function Find(path: Dotted, name: string): Value {
      if isSubmodule(path, name) then Module(path + [name]) else Attribute(path, name)
    }

    function StarNames(path: Dotted): map<string, Value> { map n | n in exports(path) :: Find(path, n) }

    function BindMember(path: Dotted, m: Member, w: World): World {
      match m
      case Star => w.(names := w.names + StarNames(path))
      case Named(name, asname) =>
        World(w.names[(if asname.Some? then asname.value else name) := Find(path, name)],
              if isSubmodule(path, name) then w.loaded + {path + [name]} else w.loaded)
    }

    function BindMembers(path: Dotted, members: seq<Member>, w: World): World {
      if members == [] then w
      else BindMember(path, members[|members| - 1], BindMembers(path, members[..|members| - 1], w))
    }

    function ExecAlias(a: Alias, w: World): World {
      World(if a.asname.Some? then w.names[a.asname.value := Module(a.name)]
          else w.names[a.name[0] := Module([a.name[0]])],
            w.loaded + Prefixes(a.name))
    }

    function ExecAliases(names: seq<Alias>, w: World): World {
      if names == [] then w else ExecAlias(names[|names| - 1], ExecAliases(names[..|names| - 1], w))
    }

    /** The module a from-import reads; empty where Python refuses it. */
    function Source(level: nat, modulePath: seq<string>, package: Dotted): seq<string> {
      if level == 0 then modulePath
      else if level > |package| then []
      else package[..|package| - (level - 1)] + modulePath
    }

    /** Whether a from-import binds the name of the prefix's top package. */
    predicate MemberBindsExtra(path: Dotted, m: Member) {
      match m
      case Star => EXTRA_NAME in exports(path)
      case Named(name, asname) => (if asname.Some? then asname.value else name) == EXTRA_NAME
    }

    predicate MembersBindExtra(path: Dotted, members: seq<Member>) {
      members != []
      && (MemberBindsExtra(path, members[|members| - 1]) || MembersBindExtra(path, members[..|members| - 1]))
    }

    function AfterStmt(s: Stmt, package: Dotted, taken: bool): bool {
      match s
      case Import(names) => AfterAliases(names, taken)
      case ImportFrom(level, modulePath, members) =>
        var path := Source(level, modulePath, package);
        taken && (path == [] || !MembersBindExtra(path, members))
    }

    /** Whether the last binding of the name is that of a vendored submodule imported by its dotted name
        alone, which makes the rewritten program bind it to the prefix's top package. */
    function TakesExtra(program: seq<Stmt>, package: Dotted, taken: bool): bool {
      if program == [] then taken
      else AfterStmt(program[|program| - 1], package, TakesExtra(program[..|program| - 1], package, taken))
    }

    /** None where the statement raises. */
    function Exec(s: Stmt, package: Dotted, w: World): Option<World> {
      match s
      case Import(names) => Some(ExecAliases(names, w))
      case ImportFrom(level, modulePath, members) =>
        var path := Source(level, modulePath, package);
        if path == [] then None else Some(BindMembers(path, members, w.(loaded := w.loaded + Prefixes(path))))
    }

    function ExecAll(program: seq<Stmt>, package: Dotted, w: World): Option<World> {
      if program == [] then Some(w)
      else
        var before := ExecAll(program[..|program| - 1], package, w);
        if before.None? then None else Exec(program[|program| - 1], package, before.value)
    }

    lemma {:induction false} ExecConcat(a: seq<Stmt>, b: seq<Stmt>, package: Dotted, w: World)
      ensures ExecAll(a + b, package, w) ==
              var before := ExecAll(a, package, w);
              if before.None? then None else ExecAll(b, package, before.value)
    {
      hide Exec;
      if b == [] {
        assert a + b == a;
      } else {
        ExecConcat(a, b[..|b| - 1], package, w);
        assert (a + b)[..|a + b| - 1] == a + b[..|b| - 1];
      }
    }

    lemma ExecOne(s: Stmt, package: Dotted, w: World)
      ensures ExecAll([s], package, w) == Exec(s, package, w)
    {
      hide Exec;
      assert [s][..0] == [];
    }
  }

  // ---- relocation -------------------------------------------------------------------------------------------

  function RelocatePath(path: Dotted): Dotted { if IsVendored(path) then Vendored(path) else path }

  function Relocate(v: Value): Value {
    match v
    case Module(path) => Module(RelocatePath(path))
    case Attribute(path, name) => Attribute(RelocatePath(path), name)
  }

  const EXTRA_NAME := "custom_components"

  /** `import mcp.types`: the vendored form loads the module by its dotted name, which binds the top
      package of the prefix. */
  predicate LoadsDotted(a: Alias) { IsVendored(a.name) && a.asname.None? && |a.name| > 1 }

  /** Whether an alias, as written, binds the name of the prefix's top package. */
  predicate BindsExtra(a: Alias) { (if a.asname.Some? then a.asname.value else a.name[0]) == EXTRA_NAME }

  /** Who holds the name after the rewritten alias: the prefix's top package (true), or as before, the
      program. */
  function AfterAlias(a: Alias, taken: bool): bool { LoadsDotted(a) || (taken && !BindsExtra(a)) }

  function AfterAliases(names: seq<Alias>, taken: bool): bool {
    if names == [] then taken else AfterAlias(names[|names| - 1], AfterAliases(names[..|names| - 1], taken))
  }

  function Image(loaded: set<Dotted>): set<Dotted> { set p | p in loaded :: RelocatePath(p) }

  /** Every binding is relocated; the name of the prefix's top package is too, or is taken by that package. */
  ghost predicate NamesMoved(taken: bool, w: map<string, Value>, v: map<string, Value>) {
    && (forall n | n in v :: n == EXTRA_NAME || (n in w && v[n] == Relocate(w[n])))
    && (forall n | n in w :: n == EXTRA_NAME || n in v)
    && if taken then EXTRA_NAME in v && v[EXTRA_NAME] == Module([EXTRA_NAME])
       else (EXTRA_NAME in v <==> EXTRA_NAME in w) && (EXTRA_NAME in w ==> v[EXTRA_NAME] == Relocate(w[EXTRA_NAME]))
  }

  /** Every loaded module is relocated; the packages of the prefix may be loaded besides. */
  ghost predicate LoadedMoved(w: set<Dotted>, v: set<Dotted>) {
    Image(w) <= v <= Image(w) + Prefixes(VENDOR_PREFIX)
  }

  ghost predicate Moved(taken: bool, w: World, v: World) {
    NamesMoved(taken, w.names, v.names) && LoadedMoved(w.loaded, v.loaded)
  }

  lemma {:induction false} VendoredPrefixes(path: seq<string>)
    requires path == [] || IsVendored(path)
    ensures Prefixes(Vendored(path)) == Prefixes(VENDOR_PREFIX) + Image(Prefixes(path))
  {
    hide VENDOR_PREFIX;
    if path == [] {
      assert Vendored(path) == VENDOR_PREFIX;
    } else {
      VendoredPrefixes(path[..|path| - 1]);
      assert Vendored(path)[..|Vendored(path)| - 1] == Vendored(path[..|path| - 1]);
      assert RelocatePath(path) == Vendored(path);
      assert Image(Prefixes(path)) == Image(Prefixes(path[..|path| - 1])) + {Vendored(path)};
    }
  }

  lemma {:induction false} PlainPrefixes(path: seq<string>)
    requires !IsVendored(path)
    ensures Image(Prefixes(path)) == Prefixes(path)
  {
    if path != [] {
      PlainPrefixes(path[..|path| - 1]);
      assert Image(Prefixes(path)) == Image(Prefixes(path[..|path| - 1])) + {path};
    }
  }

  /** Loading a module in the one world and its relocation in the other keeps them related. */
  lemma Loading(w: set<Dotted>, v: set<Dotted>, path: Dotted)
    requires LoadedMoved(w, v)
    ensures LoadedMoved(w + Prefixes(path), v + Prefixes(RelocatePath(path)))
  {
    hide Prefixes, VENDOR_PREFIX, Vendored;
    assert Image(w + Prefixes(path)) == Image(w) + Image(Prefixes(path));
    if IsVendored(path) { VendoredPrefixes(path); } else { PlainPrefixes(path); }
  }

  lemma LoadingOne(w: set<Dotted>, v: set<Dotted>, p: Dotted)
    requires LoadedMoved(w, v)
    ensures LoadedMoved(w + {p}, v + {RelocatePath(p)})
  {
    hide Prefixes, RelocatePath;
    assert Image(w + {p}) == Image(w) + {RelocatePath(p)};
  }

  lemma RelocateExtended(path: Dotted, name: string)
    ensures RelocatePath(path + [name]) == RelocatePath(path) + [name]
  {
    assert IsVendored(path + [name]) <==> IsVendored(path);
  }

  lemma FindMoved(lib: Library, path: Dotted, name: string)
    requires lib.Relocated()
    ensures lib.Find(RelocatePath(path), name) == Relocate(lib.Find(path, name))
    ensures lib.isSubmodule(RelocatePath(path), name) == lib.isSubmodule(path, name)
    ensures lib.exports(RelocatePath(path)) == lib.exports(path)
  {
    RelocateExtended(path, name);
  }

  lemma BindMemberMoved(taken: bool, lib: Library, path: Dotted, m: Member, w: World, v: World)
    requires lib.Relocated() && Moved(taken, w, v)
    ensures Moved(taken && !lib.MemberBindsExtra(path, m), lib.BindMember(path, m, w),
              lib.BindMember(RelocatePath(path), m, v))
  {
    hide Prefixes, RelocatePath, Library.Find, Relocate, Image;
    match m
    case Star =>
      FindMoved(lib, path, EXTRA_NAME);
      forall n ensures lib.Find(RelocatePath(path), n) == Relocate(lib.Find(path, n)) { FindMoved(lib, path, n); }
    case Named(name, _) =>
      FindMoved(lib, path, name);
      RelocateExtended(path, name);
      LoadingOne(w.loaded, v.loaded, path + [name]);
  }

  lemma {:induction false} BindMembersMoved(taken: bool, lib: Library, path: Dotted, members: seq<Member>, w: World,
          v: World)
    requires lib.Relocated() && Moved(taken, w, v)
    ensures Moved(taken && !lib.MembersBindExtra(path, members),
                  lib.BindMembers(path, members, w), lib.BindMembers(RelocatePath(path), members, v))
  {
    hide Library.Relocated, Moved, RelocatePath, Library.BindMember;
    if members != [] {
      var last := |members| - 1;
      BindMembersMoved(taken, lib, path, members[..last], w, v);
      BindMemberMoved(taken && !lib.MembersBindExtra(path, members[..last]), lib, path, members[last],
                      lib.BindMembers(path, members[..last], w),
                          lib.BindMembers(RelocatePath(path), members[..last], v));
    }
  }

  lemma FromImportMoved(taken: bool, lib: Library, path: Dotted, members: seq<Member>, w: World, v: World)
    requires lib.Relocated() && Moved(taken, w, v)
    ensures Moved(taken && !lib.MembersBindExtra(path, members),
                  lib.BindMembers(path, members, w.(loaded := w.loaded + Prefixes(path))),
                  lib.BindMembers(RelocatePath(path), members, v.(loaded := v.loaded + Prefixes(RelocatePath(path)))))
  {
    hide Library.Relocated, Prefixes, RelocatePath, NamesMoved, LoadedMoved;
    Loading(w.loaded, v.loaded, path);
    BindMembersMoved(taken, lib, path, members, w.(loaded := w.loaded + Prefixes(path)),
        v.(loaded := v.loaded + Prefixes(RelocatePath(path))));
  }

  /** An alias that is not vendored, or that names its binding, is one relocated import. */
  lemma AliasMoved(taken: bool, lib: Library, a: Alias, w: World, v: World)
    requires Moved(taken, w, v) && (IsVendored(a.name) ==> a.asname.Some?)
    ensures Moved(AfterAlias(a, taken), lib.ExecAlias(a, w), lib.ExecAlias(Alias(RelocatePath(a.name), a.asname), v))
  {
    hide Prefixes, LoadedMoved;
    Loading(w.loaded, v.loaded, a.name);
  }

  lemma VendoredHead(path: Dotted)
    requires IsVendored(path)
    ensures Prefixes(Vendored(path)) == Prefixes(Vendored(path)) + Prefixes(VENDOR_PREFIX) + {VENDOR_PREFIX + [path[0]]}
    ensures |path| == 1 ==> Prefixes(Vendored(path)) == Prefixes(VENDOR_PREFIX) + {VENDOR_PREFIX + [path[0]]}
  {
    hide VENDOR_PREFIX;
    VendoredPrefixes(path);
    TopIsPrefix(path);
    assert RelocatePath([path[0]]) == VENDOR_PREFIX + [path[0]];
    if |path| == 1 {
      assert path == [path[0]] && path[..0] == [];
    }
  }

  lemma {:induction false} TopIsPrefix(path: Dotted)
    ensures [path[0]] in Prefixes(path)
  {
    if |path| > 1 { TopIsPrefix(path[..|path| - 1]); } else { assert path == [path[0]]; }
  }

  /** `import top.rest` of a vendored package becomes an import that loads it and one that binds `top`. */
  lemma TopAliasMoved(taken: bool, lib: Library, a: Alias, package: Dotted, w: World, v: World)
    requires lib.Relocated() && Moved(taken, w, v) && IsVendored(a.name) && a.asname.None?
    ensures var out := lib.ExecAll(RewriteAlias(a), package, v);
            out.Some? && Moved(AfterAlias(a, taken), lib.ExecAlias(a, w), out.value)
  {
    hide Prefixes, LoadedMoved, VENDOR_PREFIX, Image, Library.Exec, Library.ExecAll;
    var top := a.name[0];
    var load := Import([Alias(Vendored(a.name), None)]);
    var bind := ImportFrom(0, VENDOR_PREFIX, [Named(top, None)]);
    var mid := if |a.name| == 1 then v else World(v.names[EXTRA_NAME := Module([EXTRA_NAME])],
        v.loaded + Prefixes(Vendored(a.name)));
    ExecTop(lib, top, package, mid);
    lib.ExecOne(bind, package, mid);
    if |a.name| == 1 {
      assert RewriteAlias(a) == [bind];
    } else {
      ExecLoad(lib, a.name, package, v);
      lib.ExecOne(load, package, v);
      lib.ExecConcat([load], [bind], package, v);
      assert RewriteAlias(a) == [load] + [bind];
    }
    TopWorldMoved(taken, lib, a, w, v);
  }

  lemma TopWorldMoved(taken: bool, lib: Library, a: Alias, w: World, v: World)
    requires Moved(taken, w, v) && IsVendored(a.name) && a.asname.None?
    ensures var mid := if |a.name| == 1 then v
                       else World(v.names[EXTRA_NAME := Module([EXTRA_NAME])], v.loaded + Prefixes(Vendored(a.name)));
            Moved(AfterAlias(a, taken), lib.ExecAlias(a, w),
                  World(mid.names[a.name[0] := Module(VENDOR_PREFIX + [a.name[0]])],
                        mid.loaded + Prefixes(VENDOR_PREFIX) + {VENDOR_PREFIX + [a.name[0]]}))
  {
    hide Prefixes, LoadedMoved, Image;
    Loading(w.loaded, v.loaded, a.name);
    VendoredHead(a.name);
    var top := a.name[0];
    var more := Prefixes(VENDOR_PREFIX) + {VENDOR_PREFIX + [top]};
    assert RelocatePath([top]) == VENDOR_PREFIX + [top];
    var old1 := v.loaded + Prefixes(Vendored(a.name));
    assert |a.name| == 1 ==> v.loaded + Prefixes(VENDOR_PREFIX) + {VENDOR_PREFIX + [top]} == v.loaded + more;
    assert old1 + Prefixes(VENDOR_PREFIX) + {VENDOR_PREFIX + [top]} == v.loaded + (Prefixes(Vendored(a.name)) + more);
    assert Prefixes(Vendored(a.name)) + more == Prefixes(Vendored(a.name));
  }

  lemma ExecLoad(lib: Library, path: Dotted, package: Dotted, v: World)
    ensures lib.Exec(Import([Alias(Vendored(path), None)]), package, v) ==
            Some(World(v.names[EXTRA_NAME := Module([EXTRA_NAME])], v.loaded + Prefixes(Vendored(path))))
  {
    hide Prefixes;
    var a := Alias(Vendored(path), None);
    assert lib.ExecAliases([a][..0], v) == v;
    assert lib.ExecAliases([a], v) == lib.ExecAlias(a, v);
    assert Vendored(path)[0] == EXTRA_NAME;
  }

  lemma ExecTop(lib: Library, top: string, package: Dotted, v: World)
    requires lib.isSubmodule(VENDOR_PREFIX, top)
    ensures lib.Exec(ImportFrom(0, VENDOR_PREFIX, [Named(top, None)]), package, v) ==
            Some(World(v.names[top := Module(VENDOR_PREFIX + [top])],
                       v.loaded + Prefixes(VENDOR_PREFIX) + {VENDOR_PREFIX + [top]}))
  {
    hide Prefixes;
    var m := Named(top, None);
    var mid := v.(loaded := v.loaded + Prefixes(VENDOR_PREFIX));
    assert lib.BindMembers(VENDOR_PREFIX, [m][..0], mid) == mid;
    assert lib.BindMembers(VENDOR_PREFIX, [m], mid) == lib.BindMember(VENDOR_PREFIX, m, mid);
  }

  lemma AnyAliasMoved(taken: bool, lib: Library, a: Alias, package: Dotted, w: World, v: World)
    requires lib.Relocated() && Moved(taken, w, v)
    ensures var out := lib.ExecAll(RewriteAlias(a), package, v);
            out.Some? && Moved(AfterAlias(a, taken), lib.ExecAlias(a, w), out.value)
  {
    hide Library.Relocated, Moved, Library.ExecAll, Library.ExecAlias, VENDOR_PREFIX;
    if IsVendored(a.name) && a.asname.None? {
      TopAliasMoved(taken, lib, a, package, w, v);
    } else {
      var b := Alias(RelocatePath(a.name), a.asname);
      AliasMoved(taken, lib, a, w, v);
      lib.ExecOne(Import([b]), package, v);
      assert lib.ExecAliases([b][..0], v) == v;
      assert lib.ExecAliases([b], v) == lib.ExecAlias(b, v);
      assert RewriteAlias(a) == [Import([b])];
    }
  }

  lemma {:induction false} AliasesMoved(taken: bool, lib: Library, names: seq<Alias>, package: Dotted, w: World,
          v: World)
    requires lib.Relocated() && Moved(taken, w, v)
    ensures var out := lib.ExecAll(RewriteAliases(names), package, v);
            out.Some? && Moved(AfterAliases(names, taken), lib.ExecAliases(names, w), out.value)
  {
    hide Library.Relocated, Moved, RewriteAlias, Library.ExecAlias, Library.Exec;
    if names != [] {
      var before, last := names[..|names| - 1], names[|names| - 1];
      AliasesMoved(taken, lib, before, package, w, v);
      var mid := lib.ExecAll(RewriteAliases(before), package, v).value;
      AnyAliasMoved(AfterAliases(before, taken), lib, last, package, lib.ExecAliases(before, w), mid);
      lib.ExecConcat(RewriteAliases(before), RewriteAlias(last), package, v);
    }
  }

  lemma FrontVendored(names: seq<Alias>)
    requires names != []
    ensures AnyVendored(names[..|names| - 1]) ==> AnyVendored(names)
  {
    var front := names[..|names| - 1];
    if AnyVendored(front) {
      var k :| 0 <= k < |front| && IsVendored(front[k].name);
      assert IsVendored(names[k].name);
    }
  }

  /** Where nothing is vendored, the statement itself keeps the worlds related. */
  lemma {:induction false} PlainAliasesMoved(taken: bool, lib: Library, names: seq<Alias>, w: World, v: World)
    requires Moved(taken, w, v) && !AnyVendored(names)
    ensures Moved(AfterAliases(names, taken), lib.ExecAliases(names, w), lib.ExecAliases(names, v))
  {
    hide Moved, Library.ExecAlias;
    if names != [] {
      var last := |names| - 1;
      FrontVendored(names);
      PlainAliasesMoved(taken, lib, names[..last], w, v);
      AliasMoved(AfterAliases(names[..last], taken), lib, names[last], lib.ExecAliases(names[..last], w),
          lib.ExecAliases(names[..last], v));
      assert !IsVendored(names[last].name);
    }
  }

  /** One dot is the package itself, one more its parent, and nothing is above the top. */
  lemma RelativeSource(lib: Library, level: nat, modulePath: seq<string>, package: Dotted)
    ensures lib.Source(1, modulePath, package) == package + modulePath
    ensures level > 0 && |package| > 1 ==>
              lib.Source(level + 1, modulePath, package) == lib.Source(level, modulePath, package[..|package| - 1])
    ensures level > 0 && |package| == 1 ==> lib.Source(level + 1, modulePath, package) == []
  {
    if level > 0 && |package| > 1 && level < |package| {
      assert package[..|package| - 1][..|package| - 1 - (level - 1)] == package[..|package| - level];
    }
  }

  /** A relative import of a vendored package finds the relocated module by itself. */
  lemma SourceMoved(lib: Library, level: nat, modulePath: seq<string>, package: Dotted)
    requires IsVendored(package) && level > 0
    requires var path := lib.Source(level, modulePath, package); path != []
    ensures var path := lib.Source(level, modulePath, package);
            lib.Source(level, modulePath, Vendored(package)) == RelocatePath(path)
  {
    hide VENDOR_PREFIX;
    var keep := |package| - (level - 1);
    var path := package[..keep] + modulePath;
    assert Vendored(package)[..|Vendored(package)| - (level - 1)] == VENDOR_PREFIX + package[..keep];
    assert path[0] == package[0];
    assert VENDOR_PREFIX + package[..keep] + modulePath == VENDOR_PREFIX + path;
  }

  /** One statement in its package, and its rewriting in the vendored package. */
  lemma StmtMoved(taken: bool, lib: Library, s: Stmt, package: Dotted, w: World, v: World)
    requires lib.Relocated() && IsVendored(package) && Moved(taken, w, v)
    requires lib.Exec(s, package, w).Some?
    ensures var out := lib.ExecAll(RewriteStmt(s), Vendored(package), v);
            out.Some? && Moved(lib.AfterStmt(s, package, taken), lib.Exec(s, package, w).value, out.value)
  {
    hide Library.Relocated, Moved, Library.ExecAll, Library.Source, Vendored;
    match s
    case Import(names) =>
      if AnyVendored(names) {
        AliasesMoved(taken, lib, names, Vendored(package), w, v);
      } else {
        PlainAliasesMoved(taken, lib, names, w, v);
        lib.ExecOne(s, Vendored(package), v);
      }
    case ImportFrom(level, modulePath, members) =>
      var path := lib.Source(level, modulePath, package);
      FromImportMoved(taken, lib, path, members, w, v);
      AbsoluteSource(lib, modulePath, package);
      AbsoluteSource(lib, RelocatePath(path), Vendored(package));
      if level > 0 { SourceMoved(lib, level, modulePath, package); }
      var out := RewriteStmt(s)[0];
      lib.ExecOne(out, Vendored(package), v);
      assert RewriteStmt(s) == [out];
  }

  lemma AbsoluteSource(lib: Library, modulePath: seq<string>, package: Dotted)
    ensures lib.Source(0, modulePath, package) == modulePath
  {
  }

  /** Meaning is preserved: run in the vendored copy of its package, the rewritten program raises nowhere
      the original did not, binds every name the original binds to the relocated value, and adds at most
      the name of the prefix's top package. */
  lemma {:induction false} RewritingPreservesMeaning(taken: bool, lib: Library, program: seq<Stmt>, package: Dotted,
          w: World, v: World)
    requires lib.Relocated() && IsVendored(package) && Moved(taken, w, v)
    requires lib.ExecAll(program, package, w).Some?
    ensures var out := lib.ExecAll(RewriteProgram(program), Vendored(package), v);
            out.Some? && Moved(lib.TakesExtra(program, package, taken), lib.ExecAll(program, package, w).value,
                out.value)
  {
    hide Library.Relocated, Moved, Library.Exec, RewriteStmt, Vendored;
    if program != [] {
      var before, last := program[..|program| - 1], program[|program| - 1];
      RewritingPreservesMeaning(taken, lib, before, package, w, v);
      var mid := lib.ExecAll(RewriteProgram(before), Vendored(package), v).value;
      StmtMoved(lib.TakesExtra(before, package, taken), lib, last, package, lib.ExecAll(before, package, w).value, mid);
      lib.ExecConcat(RewriteProgram(before), RewriteStmt(last), Vendored(package), v);
    }
  }

  /** The one name the rewrite may bind anew, for every program: it ends up bound to the prefix's top package
      when the last to bind it was a vendored submodule imported by its dotted name alone, and keeps the
      program's own binding, relocated, exactly when it was not or that binding was the package anyway. */
  lemma ExtraNameAppears(lib: Library, program: seq<Stmt>, package: Dotted, w: World, v: World)
    requires lib.Relocated() && IsVendored(package) && Moved(false, w, v)
    requires lib.ExecAll(program, package, w).Some?
    ensures var out := lib.ExecAll(RewriteProgram(program), Vendored(package), v);
            var was, taken := lib.ExecAll(program, package, w).value.names, lib.TakesExtra(program, package, false);
            && out.Some?
            && (EXTRA_NAME in out.value.names <==> taken || EXTRA_NAME in was)
            && (taken ==> out.value.names[EXTRA_NAME] == Module([EXTRA_NAME]))
            && (EXTRA_NAME in was ==>
                  (out.value.names[EXTRA_NAME] == Relocate(was[EXTRA_NAME]) <==>
                   !taken || was[EXTRA_NAME] == Module([EXTRA_NAME])))
  {
    hide Library.Relocated, LoadedMoved, Library.ExecAll, RewriteProgram, Library.TakesExtra;
    RewritingPreservesMeaning(false, lib, program, package, w, v);
    var was := lib.ExecAll(program, package, w).value.names;
    if EXTRA_NAME in was { OnlyItself(was[EXTRA_NAME]); }
  }

  lemma OnlyItself(value: Value)
    ensures Relocate(value) == Module([EXTRA_NAME]) <==> value == Module([EXTRA_NAME])
  {
  }

  /** The name `custom_components` is the one exception: a program that binds it to something else and then
      imports a dotted vendored module loses its own binding. */
  lemma ExtraNameMayBeLost(lib: Library, package: Dotted, w: World)
    requires lib.Relocated() && IsVendored(package) && !lib.isSubmodule(["os"], EXTRA_NAME)
    ensures var program := [ImportFrom(0, ["os"], [Named(EXTRA_NAME, None)]), Import([Alias(["mcp", "types"], None)])];
            var was, now := lib.ExecAll(program, package, w),
                lib.ExecAll(RewriteProgram(program), Vendored(package), w);
            was.Some? && now.Some? && EXTRA_NAME in was.value.names && EXTRA_NAME in now.value.names
            && was.value.names[EXTRA_NAME] == Attribute(["os"], EXTRA_NAME)
            && now.value.names[EXTRA_NAME] == Module([EXTRA_NAME])
  {
    hide Prefixes, Library.ExecAll;
    var own, a := ImportFrom(0, ["os"], [Named(EXTRA_NAME, None)]), Alias(["mcp", "types"], None);
    var one := lib.Exec(own, package, w).value;
    var load, bind := Import([Alias(Vendored(a.name), None)]), ImportFrom(0, VENDOR_PREFIX, [Named("mcp", None)]);
    ExecOwn(lib, package, w);
    ExecOwn(lib, Vendored(package), w);
    ExecDotted(lib, a, package, one);
    lib.ExecConcat([own], [Import([a])], package, w);
    lib.ExecOne(own, package, w);
    lib.ExecOne(Import([a]), package, one);
    RewriteTwo(own, a);
    lib.ExecConcat([own], [load] + [bind], Vendored(package), w);
    lib.ExecOne(own, Vendored(package), w);
    lib.ExecConcat([load], [bind], Vendored(package), one);
    lib.ExecOne(load, Vendored(package), one);
    ExecLoad(lib, a.name, Vendored(package), one);
    var two := lib.Exec(load, Vendored(package), one).value;
    lib.ExecOne(bind, Vendored(package), two);
    ExecTop(lib, "mcp", Vendored(package), two);
  }

  lemma ExecOwn(lib: Library, package: Dotted, w: World)
    requires !lib.isSubmodule(["os"], EXTRA_NAME)
    ensures lib.Exec(ImportFrom(0, ["os"], [Named(EXTRA_NAME, None)]), package, w) ==
            Some(World(w.names[EXTRA_NAME := Attribute(["os"], EXTRA_NAME)], w.loaded + Prefixes(["os"])))
  {
    hide Prefixes;
    var m := Named(EXTRA_NAME, None);
    var mid := w.(loaded := w.loaded + Prefixes(["os"]));
    assert lib.BindMembers(["os"], [m][..0], mid) == mid;
    assert lib.BindMembers(["os"], [m], mid) == lib.BindMember(["os"], m, mid);
  }

  lemma ExecDotted(lib: Library, a: Alias, package: Dotted, w: World)
    requires a.asname.None? && a.name[0] != EXTRA_NAME && EXTRA_NAME in w.names
    ensures var out := lib.Exec(Import([a]), package, w);
            out.Some? && EXTRA_NAME in out.value.names && out.value.names[EXTRA_NAME] == w.names[EXTRA_NAME]
  {
    hide Prefixes;
    assert lib.ExecAliases([a][..0], w) == w;
    assert lib.ExecAliases([a], w) == lib.ExecAlias(a, w);
  }

  lemma RewriteTwo(own: Stmt, a: Alias)
    requires RewriteStmt(own) == [own] && LoadsDotted(a)
    ensures [own] + [Import([a])] == [own, Import([a])]
    ensures RewriteProgram([own, Import([a])]) ==
            [own] + ([Import([Alias(Vendored(a.name), None)])]
                + [ImportFrom(0, VENDOR_PREFIX, [Named(a.name[0], None)])])
  {
    hide Vendored, VENDOR_PREFIX;
    var program := [own, Import([a])];
    assert program[..1] == [own] && [own][..0] == [] && [a][..0] == [];
    assert RewriteProgram([own][..0]) == [];
    assert RewriteProgram([own]) == RewriteStmt(own);
    assert IsVendored([a][0].name);
    assert RewriteAliases([a][..0]) == [];
    assert RewriteAliases([a]) == RewriteAlias(a);
  }
}
