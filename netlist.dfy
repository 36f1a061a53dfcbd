/**
 * The two already-parsed JSON documents that json2stems.py consumes, as
 * records whose fields may be absent. A field of type `Option<..>` is
 * `None` exactly when the JSON object has no such key.
 */
module Netlist {
  import opened Wrappers

  /** One entry of the metadata document's `files` object. */
  datatype FileInfo = FileInfo(realpath: Option<string>)

  /** One entry of a module's `stmtsp` list. */
  datatype Stmt = Stmt(typ: Option<string>, name: Option<string>, modp: Option<string>)

  /** One entry of the netlist document's `modulesp` list. */
  datatype Module = Module(
    addr: Option<string>,
    name: Option<string>,
    loc: Option<string>,
    stmtsp: Option<seq<Stmt>>)

  /**
   * A top-level JSON object. Only the two keys the core looks at are kept:
   * `files` (present in the metadata document) and `modulesp` (the netlist's
   * module list).
   */
  datatype Document = Document(
    files: Option<map<string, FileInfo>>,
    modulesp: Option<seq<Module>>)

  /** `netlist_json.get("modulesp", [])` */
  function ModulesOf(doc: Document): seq<Module> {
    doc.modulesp.GetOr([])
  }

  /** `mod.get("stmtsp", [])` */
  function StmtsOf(m: Module): seq<Stmt> {
    m.stmtsp.GetOr([])
  }
}
