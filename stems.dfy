/**
 * The stem emitter, `json2stems` in json2stems.py: one `++ module` line per
 * module whose source file is known, and one `++ comp` line per named CELL
 * statement, in module order and, inside a module, in statement order.
 *
 * The pure functions below say what the output is; the method Json2Stems
 * is the loop that writes it, proved to write exactly that.
 */
module Stems {
  import opened Wrappers
  import opened Decimal
  import opened Netlist
  import opened Location
  import opened Indices

  /** One line of stem output. */
  datatype Record =
    | ModuleLine(name: string, path: string, start: nat, end: nat)
    | CompLine(inst: string, target: string, parent: string)

  /** The text `out.write` receives for a record, newline included. */
  function Render(r: Record): string {
    match r
    case ModuleLine(name, path, start, end) =>
      "++ module " + name + " file " + path + " lines " + NatToDecimal(start) + " - " + NatToDecimal(end) + "\n"
    case CompLine(inst, target, parent) =>
      "++ comp " + inst + " type " + target + " parent " + parent + "\n"
  }

  function RenderAll(rs: seq<Record>): (lines: seq<string>)
    ensures |lines| == |rs|
    ensures forall k :: 0 <= k < |rs| ==> lines[k] == Render(rs[k])
  {
    seq(|rs|, k requires 0 <= k < |rs| => Render(rs[k]))
  }

  lemma RenderAllAppend(a: seq<Record>, b: seq<Record>)
    ensures RenderAll(a + b) == RenderAll(a) + RenderAll(b)
  {
  }

  lemma AppendAssoc<T>(a: seq<T>, b: seq<T>, c: seq<T>)
    ensures (a + b) + c == a + (b + c)
  {
  }

  /** The statement is a CELL that carries an instance name. */
  predicate IsNamedCell(st: Stmt) {
    st.typ == Some("CELL") && st.name.Some?
  }

  /** `pointer_to_module_name.get(stmt.get("modp"), "UNKNOWN")` */
  function Target(modp: Option<string>, index: map<string, string>): string {
    if modp.None? then "UNKNOWN" else Get(index, modp.value).GetOr("UNKNOWN")
  }

  /** A `modp` bound in the address index resolves to the name of the last module with that `addr`. */
  lemma TargetOfLastBinding(mods: seq<Module>, a: string, i: nat)
    requires i < |mods| && Binds(mods[i], a)
    requires forall j :: i < j < |mods| ==> !Binds(mods[j], a)
    ensures Target(Some(a), AddressIndex(mods)) == mods[i].name.value
  {
    AddressIndexLastWins(mods, a, i);
  }

  /** The comp record a statement of module `parent` produces, if any. */
  function StmtRecords(st: Stmt, index: map<string, string>, parent: string): seq<Record> {
    if IsNamedCell(st) then [CompLine(st.name.value, Target(st.modp, index), parent)] else []
  }

  /** The comp records of a module's statements, in statement order. */
  function CompRecords(stmts: seq<Stmt>, index: map<string, string>, parent: string): seq<Record> {
    if stmts == [] then []
    else StmtRecords(stmts[0], index, parent) + CompRecords(stmts[1..], index, parent)
  }

  /** The module has a source file: its file-id maps to a non-empty realpath (Python truthiness). */
  predicate HasSourceFile(loc: string, filemap: map<string, string>) {
    var realpath := Get(filemap, GetFileId(loc));
    realpath.Some? && realpath.value != ""
  }

  /** The `++ module` record of a module with a name and a location, if its source file is known. */
  function ModuleHeader(name: string, loc: string, filemap: map<string, string>): seq<Record> {
    if HasSourceFile(loc, filemap) then
      var (start, end) := GetLineRange(loc);
      [ModuleLine(name, filemap[GetFileId(loc)], start, end)]
    else []
  }

  /** Everything one module contributes; nothing when it lacks a `name` or a `loc`. */
  function ModuleRecords(m: Module, filemap: map<string, string>, index: map<string, string>): seq<Record> {
    if m.name.None? || m.loc.None? then []
    else ModuleHeader(m.name.value, m.loc.value, filemap) + CompRecords(StmtsOf(m), index, m.name.value)
  }

  /** The records of a module list: each module's records, in list order. */
  function StemRecords(mods: seq<Module>, filemap: map<string, string>, index: map<string, string>): seq<Record> {
    if mods == [] then []
    else ModuleRecords(mods[0], filemap, index) + StemRecords(mods[1..], filemap, index)
  }

  /** The whole stem output for a classified pair of documents. */
  function StemFile(meta: Document, netlist: Document): seq<Record> {
    StemRecords(ModulesOf(netlist), ParseFileMap(meta), AddressIndex(ModulesOf(netlist)))
  }

  /** Output order follows module order: the records of a + b are those of a, then those of b. */
  lemma {:induction false} StemRecordsAppend(a: seq<Module>, b: seq<Module>, filemap: map<string, string>, index: map<string, string>)
    ensures StemRecords(a + b, filemap, index) == StemRecords(a, filemap, index) + StemRecords(b, filemap, index)
  {
    if a != [] {
      assert (a + b)[0] == a[0];
      assert (a + b)[1..] == a[1..] + b;
      StemRecordsAppend(a[1..], b, filemap, index);
      AppendAssoc(ModuleRecords(a[0], filemap, index), StemRecords(a[1..], filemap, index), StemRecords(b, filemap, index));
    } else {
      assert a + b == b;
    }
  }

  /** Comp order follows statement order. */
  lemma {:induction false} CompRecordsAppend(a: seq<Stmt>, b: seq<Stmt>, index: map<string, string>, parent: string)
    ensures CompRecords(a + b, index, parent) == CompRecords(a, index, parent) + CompRecords(b, index, parent)
  {
    if a != [] {
      assert (a + b)[0] == a[0];
      assert (a + b)[1..] == a[1..] + b;
      CompRecordsAppend(a[1..], b, index, parent);
      AppendAssoc(StmtRecords(a[0], index, parent), CompRecords(a[1..], index, parent), CompRecords(b, index, parent));
    } else {
      assert a + b == b;
    }
  }

  /** A module without `name` or without `loc` writes no line at all, neither module nor comp. */
  lemma SkippedModuleWritesNothing(pre: seq<Module>, m: Module, post: seq<Module>, filemap: map<string, string>, index: map<string, string>)
    requires m.name.None? || m.loc.None?
    ensures StemRecords(pre + [m] + post, filemap, index) == StemRecords(pre, filemap, index) + StemRecords(post, filemap, index)
  {
    StemRecordsAppend(pre + [m], post, filemap, index);
    StemRecordsAppend(pre, [m], filemap, index);
    SingleModuleRecords(m, filemap, index);
  }

  lemma SingleModuleRecords(m: Module, filemap: map<string, string>, index: map<string, string>)
    ensures StemRecords([m], filemap, index) == ModuleRecords(m, filemap, index)
  {
    assert [m][1..] == [];
  }

  /** The records of the first i + 1 modules extend those of the first i by module i's. */
  lemma StemRecordsStep(mods: seq<Module>, i: nat, filemap: map<string, string>, index: map<string, string>)
    requires i < |mods|
    ensures RenderAll(StemRecords(mods[..i + 1], filemap, index)) ==
      RenderAll(StemRecords(mods[..i], filemap, index)) + RenderAll(ModuleRecords(mods[i], filemap, index))
  {
    assert mods[..i + 1] == mods[..i] + [mods[i]];
    StemRecordsAppend(mods[..i], [mods[i]], filemap, index);
    SingleModuleRecords(mods[i], filemap, index);
    RenderAllAppend(StemRecords(mods[..i], filemap, index), ModuleRecords(mods[i], filemap, index));
  }

  /** The header is the rendered module line when the file-id resolves to a non-empty path, and nothing otherwise. */
  lemma ModuleHeaderRendered(name: string, loc: string, filemap: map<string, string>)
    ensures HasSourceFile(loc, filemap) ==>
      RenderAll(ModuleHeader(name, loc, filemap)) ==
        [Render(ModuleLine(name, filemap[GetFileId(loc)], GetLineRange(loc).0, GetLineRange(loc).1))]
    ensures !HasSourceFile(loc, filemap) ==> RenderAll(ModuleHeader(name, loc, filemap)) == []
  {
  }

  /** A statement writes its comp line when it is a named CELL, and nothing otherwise. */
  lemma StmtRecordsRendered(st: Stmt, index: map<string, string>, parent: string)
    ensures IsNamedCell(st) ==>
      RenderAll(StmtRecords(st, index, parent)) == [Render(CompLine(st.name.value, Target(st.modp, index), parent))]
    ensures !IsNamedCell(st) ==> RenderAll(StmtRecords(st, index, parent)) == []
  {
  }

  /** A module with a name and a location writes its header, then its comp lines. */
  lemma ModuleRecordsSplit(m: Module, filemap: map<string, string>, index: map<string, string>)
    requires m.name.Some? && m.loc.Some?
    ensures RenderAll(ModuleRecords(m, filemap, index)) ==
      RenderAll(ModuleHeader(m.name.value, m.loc.value, filemap)) + RenderAll(CompRecords(StmtsOf(m), index, m.name.value))
  {
    RenderAllAppend(ModuleHeader(m.name.value, m.loc.value, filemap), CompRecords(StmtsOf(m), index, m.name.value));
  }

  /** The comp records of the first j + 1 statements extend those of the first j by statement j's. */
  lemma CompRecordsStep(stmts: seq<Stmt>, j: nat, index: map<string, string>, parent: string)
    requires j < |stmts|
    ensures RenderAll(CompRecords(stmts[..j + 1], index, parent)) ==
      RenderAll(CompRecords(stmts[..j], index, parent)) + RenderAll(StmtRecords(stmts[j], index, parent))
  {
    assert stmts[..j + 1] == stmts[..j] + [stmts[j]];
    CompRecordsAppend(stmts[..j], [stmts[j]], index, parent);
    assert [stmts[j]][1..] == [];
    assert CompRecords([stmts[j]], index, parent) == StmtRecords(stmts[j], index, parent);
    RenderAllAppend(CompRecords(stmts[..j], index, parent), StmtRecords(stmts[j], index, parent));
  }

  /**
   * The comp records of a statement list are exactly one CompLine per named
   * CELL statement, naming the instance, its resolved type and the parent.
   */
  lemma {:induction false} CompRecordsMembers(stmts: seq<Stmt>, index: map<string, string>, parent: string, r: Record)
    ensures r in CompRecords(stmts, index, parent) <==>
      exists j :: 0 <= j < |stmts| && IsNamedCell(stmts[j]) &&
        r == CompLine(stmts[j].name.value, Target(stmts[j].modp, index), parent)
  {
    if stmts != [] {
      CompRecordsMembers(stmts[1..], index, parent, r);
      if r in CompRecords(stmts[1..], index, parent) {
        var j :| 0 <= j < |stmts[1..]| && IsNamedCell(stmts[1..][j]) &&
          r == CompLine(stmts[1..][j].name.value, Target(stmts[1..][j].modp, index), parent);
        assert stmts[j + 1] == stmts[1..][j];
      }
      if exists j :: 0 <= j < |stmts| && IsNamedCell(stmts[j]) &&
          r == CompLine(stmts[j].name.value, Target(stmts[j].modp, index), parent) {
        var j :| 0 <= j < |stmts| && IsNamedCell(stmts[j]) &&
          r == CompLine(stmts[j].name.value, Target(stmts[j].modp, index), parent);
        if j > 0 {
          assert stmts[1..][j - 1] == stmts[j];
        }
      }
    }
  }

  /** The named CELL statements of a list, in statement order. */
  function NamedCells(stmts: seq<Stmt>): (cells: seq<Stmt>)
    ensures |cells| <= |stmts|
    ensures forall k :: 0 <= k < |cells| ==> IsNamedCell(cells[k]) && cells[k] in stmts
  {
    if stmts == [] then []
    else (if IsNamedCell(stmts[0]) then [stmts[0]] else []) + NamedCells(stmts[1..])
  }

  /** The cells are named CELLs and the records are their comp lines in module `parent`, one each and in the same order. */
  predicate CompLinesFor(records: seq<Record>, cells: seq<Stmt>, index: map<string, string>, parent: string) {
    |records| == |cells| &&
    forall k :: 0 <= k < |cells| ==>
      IsNamedCell(cells[k]) && records[k] == CompLine(cells[k].name.value, Target(cells[k].modp, index), parent)
  }

  /**
   * One comp record per named CELL statement, in statement order: the k-th
   * record names the k-th named CELL, its resolved type and the parent.
   */
  lemma {:induction false} CompRecordsOfNamedCells(stmts: seq<Stmt>, index: map<string, string>, parent: string)
    ensures CompLinesFor(CompRecords(stmts, index, parent), NamedCells(stmts), index, parent)
  {
    if stmts != [] {
      var rest := stmts[1..];
      CompRecordsOfNamedCells(rest, index, parent);
      if IsNamedCell(stmts[0]) {
        CompLinesForCons(stmts[0], CompRecords(rest, index, parent), NamedCells(rest), index, parent);
      }
    }
  }

  lemma CompLinesForCons(st: Stmt, records: seq<Record>, cells: seq<Stmt>, index: map<string, string>, parent: string)
    requires IsNamedCell(st)
    requires CompLinesFor(records, cells, index, parent)
    ensures CompLinesFor([CompLine(st.name.value, Target(st.modp, index), parent)] + records, [st] + cells, index, parent)
  {
  }

  /** The records of a given kind, in order. */
  function ModuleLinesOf(rs: seq<Record>): seq<Record> {
    if rs == [] then []
    else (if rs[0].ModuleLine? then [rs[0]] else []) + ModuleLinesOf(rs[1..])
  }

  function CompLinesOf(rs: seq<Record>): seq<Record> {
    if rs == [] then []
    else (if rs[0].CompLine? then [rs[0]] else []) + CompLinesOf(rs[1..])
  }

  lemma {:induction false} LinesOfAppend(a: seq<Record>, b: seq<Record>)
    ensures ModuleLinesOf(a + b) == ModuleLinesOf(a) + ModuleLinesOf(b)
    ensures CompLinesOf(a + b) == CompLinesOf(a) + CompLinesOf(b)
  {
    if a != [] {
      assert (a + b)[1..] == a[1..] + b;
      LinesOfAppend(a[1..], b);
    } else {
      assert a + b == b;
    }
  }

  /** Statements contribute only comp lines. */
  lemma {:induction false} CompRecordsLines(stmts: seq<Stmt>, index: map<string, string>, parent: string)
    ensures ModuleLinesOf(CompRecords(stmts, index, parent)) == []
    ensures CompLinesOf(CompRecords(stmts, index, parent)) == CompRecords(stmts, index, parent)
  {
    if stmts != [] {
      var first := StmtRecords(stmts[0], index, parent);
      CompRecordsLines(stmts[1..], index, parent);
      LinesOfAppend(first, CompRecords(stmts[1..], index, parent));
      if first != [] {
        assert first[1..] == [];
      }
    }
  }

  /**
   * A module writes a `++ module` line exactly when it has a name and a
   * location whose file-id maps to a non-empty realpath; the line carries
   * that realpath and the location's line range. It writes at most one.
   */
  lemma ModuleLineEmitted(m: Module, filemap: map<string, string>, index: map<string, string>)
    ensures |ModuleLinesOf(ModuleRecords(m, filemap, index))| <= 1
    ensures |ModuleLinesOf(ModuleRecords(m, filemap, index))| == 1 <==>
      m.name.Some? && m.loc.Some? && GetFileId(m.loc.value) in filemap && filemap[GetFileId(m.loc.value)] != ""
    ensures |ModuleLinesOf(ModuleRecords(m, filemap, index))| == 1 ==>
      ModuleLinesOf(ModuleRecords(m, filemap, index))[0] ==
        ModuleLine(m.name.value, filemap[GetFileId(m.loc.value)], GetLineRange(m.loc.value).0, GetLineRange(m.loc.value).1)
  {
    if m.name.Some? && m.loc.Some? {
      var header := ModuleHeader(m.name.value, m.loc.value, filemap);
      var comps := CompRecords(StmtsOf(m), index, m.name.value);
      CompRecordsLines(StmtsOf(m), index, m.name.value);
      LinesOfAppend(header, comps);
      if header != [] {
        assert ModuleLinesOf(header) == header;
      }
    }
  }

  /**
   * The comp lines a module writes do not depend on whether its module line
   * was written: they are its statements' comp records whatever the file
   * index holds.
   */
  lemma CompLinesIgnoreFileIndex(m: Module, filemap: map<string, string>, index: map<string, string>)
    requires m.name.Some? && m.loc.Some?
    ensures CompLinesOf(ModuleRecords(m, filemap, index)) == CompRecords(StmtsOf(m), index, m.name.value)
  {
    var header := ModuleHeader(m.name.value, m.loc.value, filemap);
    var comps := CompRecords(StmtsOf(m), index, m.name.value);
    CompRecordsLines(StmtsOf(m), index, m.name.value);
    LinesOfAppend(header, comps);
    if header != [] {
      assert CompLinesOf(header) == [];
    }
  }

  /**
   * `json2stems`: walks the modules, skips those without `name` or `loc`,
   * writes the module line when the file index resolves the location's
   * file-id to a non-empty path, then one comp line per named CELL
   * statement. Each element of `out` is the text of one `out.write` call.
   */
  method Json2Stems(meta: Document, netlist: Document) returns (out: seq<string>)
    ensures out == RenderAll(StemFile(meta, netlist))
  {
    var filemap := ParseFileMap(meta);
    var mods := ModulesOf(netlist);
    var pointerToModuleName := AddressIndex(mods);
    out := [];
    for i := 0 to |mods|
      invariant out == RenderAll(StemRecords(mods[..i], filemap, pointerToModuleName))
    {
      var mod := mods[i];
      StemRecordsStep(mods, i, filemap, pointerToModuleName);
      if mod.name.None? || mod.loc.None? {
        continue;
      }
      var loc := mod.loc.value;
      var modName := mod.name.value;
      var fileId := GetFileId(loc);
      var (startLine, endLine) := GetLineRange(loc);
      var realpath := Get(filemap, fileId);
      ghost var before := out;
      ghost var header := ModuleHeader(modName, loc, filemap);
      ModuleHeaderRendered(modName, loc, filemap);
      if realpath.Some? && realpath.value != "" {
        out := out + [Render(ModuleLine(modName, realpath.value, startLine, endLine))];
      }
      assert out == before + RenderAll(header);
      ghost var base := out;
      var stmts := StmtsOf(mod);
      for j := 0 to |stmts|
        invariant out == base + RenderAll(CompRecords(stmts[..j], pointerToModuleName, modName))
      {
        var stmt := stmts[j];
        CompRecordsStep(stmts, j, pointerToModuleName, modName);
        StmtRecordsRendered(stmt, pointerToModuleName, modName);
        AppendAssoc(base, RenderAll(CompRecords(stmts[..j], pointerToModuleName, modName)),
          RenderAll(StmtRecords(stmt, pointerToModuleName, modName)));
        if stmt.typ == Some("CELL") && stmt.name.Some? {
          var instName := stmt.name.value;
          var targetModName := Target(stmt.modp, pointerToModuleName);
          out := out + [Render(CompLine(instName, targetModName, modName))];
        }
      }
      assert stmts[..|stmts|] == stmts;
      ModuleRecordsSplit(mod, filemap, pointerToModuleName);
      AppendAssoc(before, RenderAll(header), RenderAll(CompRecords(stmts, pointerToModuleName, modName)));
    }
    assert mods[..|mods|] == mods;
  }

  /** Module `M` at `a,10:1,20:5` in file `a` = `/src/m.v` writes `++ module M file /src/m.v lines 10 - 20`. */
  lemma ModuleLineExample(m: Module, filemap: map<string, string>, index: map<string, string>)
    requires m == Module(None, Some("M"), Some("a,10:1,20:5"), None)
    requires filemap == map["a" := "/src/m.v"]
    ensures ModuleRecords(m, filemap, index) == [ModuleLine("M", "/src/m.v", 10, 20)]
    ensures RenderAll(ModuleRecords(m, filemap, index)) == ["++ module M file /src/m.v lines 10 - 20\n"]
  {
    ModuleLineRecord(m, filemap, index);
    var line := Render(ModuleLine("M", "/src/m.v", 10, 20));
    ModuleLineText(line);
    assert RenderAll([ModuleLine("M", "/src/m.v", 10, 20)]) == [line];
  }

  lemma ModuleLineRecord(m: Module, filemap: map<string, string>, index: map<string, string>)
    requires m == Module(None, Some("M"), Some("a,10:1,20:5"), None)
    requires filemap == map["a" := "/src/m.v"]
    ensures ModuleRecords(m, filemap, index) == [ModuleLine("M", "/src/m.v", 10, 20)]
  {
    LetterFileIdExample(m.loc.value);
    ModuleRecordsWithFile(m, filemap, index);
    assert CompRecords([], index, "M") == [];
  }

  /** The records of a module whose file-id resolves: its module line, then its comp lines. */
  lemma ModuleRecordsWithFile(m: Module, filemap: map<string, string>, index: map<string, string>)
    requires m.name.Some? && m.loc.Some? && HasSourceFile(m.loc.value, filemap)
    ensures ModuleRecords(m, filemap, index) ==
      [ModuleLine(m.name.value, filemap[GetFileId(m.loc.value)], GetLineRange(m.loc.value).0, GetLineRange(m.loc.value).1)]
        + CompRecords(StmtsOf(m), index, m.name.value)
  {
  }

  lemma ModuleLineText(line: string)
    requires line == Render(ModuleLine("M", "/src/m.v", 10, 20))
    ensures line == "++ module M file /src/m.v lines 10 - 20\n"
  {
    DecimalExamples();
    assert line == "++ module " + "M" + " file " + "/src/m.v" + " lines " + "10" + " - " + "20" + "\n";
  }

  lemma DecimalExamples()
    ensures NatToDecimal(10) == "10" && NatToDecimal(20) == "20"
  {
    var ten, twenty := "10", "20";
    assert ten[..1] == "1" && twenty[..1] == "2";
    DecimalOfValue(ten);
    DecimalOfValue(twenty);
  }

  /** A named CELL whose `modp` is missing or unresolved is written with type `UNKNOWN`. */
  lemma UnresolvedTargetLine(st: Stmt, index: map<string, string>, parent: string)
    requires st.typ == Some("CELL") && st.name.Some?
    requires st.modp.None? || st.modp.value !in index
    ensures CompRecords([st], index, parent) == [CompLine(st.name.value, "UNKNOWN", parent)]
    ensures RenderAll(CompRecords([st], index, parent)) ==
      ["++ comp " + st.name.value + " type UNKNOWN parent " + parent + "\n"]
  {
    assert [st][1..] == [];
    assert CompRecords([st], index, parent) == [CompLine(st.name.value, "UNKNOWN", parent)];
    var line := Render(CompLine(st.name.value, "UNKNOWN", parent));
    assert line == "++ comp " + st.name.value + " type " + "UNKNOWN" + " parent " + parent + "\n";
    var name := st.name.value;
    assert "++ comp " + name + " type " + "UNKNOWN" + " parent " + parent + "\n"
      == "++ comp " + name + " type UNKNOWN parent " + parent + "\n";
    assert RenderAll([CompLine(name, "UNKNOWN", parent)]) == [line];
  }

  /**
   * A two-module design: `top` instantiates `sub` as `u_sub`. Both locations
   * are in file `f1`, whose id ends in a digit, so both module lines carry
   * lines 0 - 0.
   */
  lemma TwoModuleExample(meta: Document, netlist: Document)
    requires meta == Document(Some(map["f1" := FileInfo(Some("/a.v"))]), None)
    requires netlist == Document(None, Some([
      Module(Some("0x1"), Some("top"), Some("f1,1:1,5:1"), Some([Stmt(Some("CELL"), Some("u_sub"), Some("0x2"))])),
      Module(Some("0x2"), Some("sub"), Some("f1,6:1,9:1"), Some([]))]))
    ensures StemFile(meta, netlist) ==
      [ModuleLine("top", "/a.v", 0, 0), CompLine("u_sub", "sub", "top"), ModuleLine("sub", "/a.v", 0, 0)]
  {
    var mods := ModulesOf(netlist);
    var filemap := ParseFileMap(meta);
    assert filemap == map["f1" := "/a.v"];
    var index := AddressIndex(mods);
    TwoModuleIndex(mods);
    TopRecords(mods[0], filemap, index);
    SubRecords(mods[1], filemap, index);
    var rest := mods[1..];
    assert rest[0] == mods[1] && rest[1..] == [];
    assert StemRecords(rest, filemap, index) == ModuleRecords(mods[1], filemap, index);
  }

  lemma TwoModuleIndex(mods: seq<Module>)
    requires |mods| == 2
    requires mods[0].addr == Some("0x1") && mods[0].name == Some("top")
    requires mods[1].addr == Some("0x2") && mods[1].name == Some("sub")
    ensures AddressIndex(mods) == map["0x1" := "top", "0x2" := "sub"]
  {
    var first := mods[..1];
    assert first[0] == mods[0] && first[..0] == [];
    assert AddressIndex(first) == map["0x1" := "top"];
  }

  lemma TopRecords(top: Module, filemap: map<string, string>, index: map<string, string>)
    requires top == Module(Some("0x1"), Some("top"), Some("f1,1:1,5:1"), Some([Stmt(Some("CELL"), Some("u_sub"), Some("0x2"))]))
    requires filemap == map["f1" := "/a.v"] && index == map["0x1" := "top", "0x2" := "sub"]
    ensures ModuleRecords(top, filemap, index) == [ModuleLine("top", "/a.v", 0, 0), CompLine("u_sub", "sub", "top")]
  {
    FileF1HasNoLines(top.loc.value, '1', '5');
    var stmts := StmtsOf(top);
    assert stmts[1..] == [];
    assert CompRecords(stmts, index, "top") == [CompLine("u_sub", "sub", "top")];
    assert ModuleHeader("top", top.loc.value, filemap) == [ModuleLine("top", "/a.v", 0, 0)];
  }

  lemma SubRecords(sub: Module, filemap: map<string, string>, index: map<string, string>)
    requires sub == Module(Some("0x2"), Some("sub"), Some("f1,6:1,9:1"), Some([]))
    requires filemap == map["f1" := "/a.v"]
    ensures ModuleRecords(sub, filemap, index) == [ModuleLine("sub", "/a.v", 0, 0)]
  {
    FileF1HasNoLines(sub.loc.value, '6', '9');
    assert ModuleHeader("sub", sub.loc.value, filemap) == [ModuleLine("sub", "/a.v", 0, 0)];
  }
}
