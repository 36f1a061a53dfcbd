/**
 * The decision `main` takes after loading its two JSON arguments: the one
 * document with a top-level `files` key is the metadata, the other the
 * netlist; if both or neither have the key the run stops with no output.
 */
module Classifier {
  import opened Wrappers
  import opened Netlist
  import opened Stems

  /** The document has a top-level `files` key. */
  predicate HasFiles(d: Document) {
    d.files.Some?
  }

  /** (metadata, netlist) when exactly one of the two documents has `files`, None otherwise. */
  function Classify(j1: Document, j2: Document): (r: Option<(Document, Document)>)
    ensures r.Some? <==> HasFiles(j1) != HasFiles(j2)
    ensures r.Some? ==> HasFiles(r.value.0) && !HasFiles(r.value.1)
    ensures r.Some? ==> multiset{r.value.0, r.value.1} == multiset{j1, j2}
  {
    if HasFiles(j1) && !HasFiles(j2) then Some((j1, j2))
    else if HasFiles(j2) && !HasFiles(j1) then Some((j2, j1))
    else None
  }

  /** The roles depend on the documents, not on the order they were given in. */
  lemma ClassifyOrderIndependent(j1: Document, j2: Document)
    ensures Classify(j1, j2) == Classify(j2, j1)
  {
  }

  /** What `main` writes to the output file, or None when it exits without writing. */
  function Run(j1: Document, j2: Document): (out: Option<seq<string>>)
    ensures out.Some? <==> HasFiles(j1) != HasFiles(j2)
  {
    match Classify(j1, j2)
    case None => None
    case Some((meta, netlist)) => Some(RenderAll(StemFile(meta, netlist)))
  }

  /** Swapping the two command-line documents does not change the output. */
  lemma RunOrderIndependent(j1: Document, j2: Document)
    ensures Run(j1, j2) == Run(j2, j1)
  {
    ClassifyOrderIndependent(j1, j2);
  }

  /** With the metadata first or second, the output is that of `json2stems(meta, netlist)`. */
  lemma RunWritesStems(meta: Document, netlist: Document)
    requires HasFiles(meta) && !HasFiles(netlist)
    ensures Run(meta, netlist) == Some(RenderAll(StemFile(meta, netlist)))
    ensures Run(netlist, meta) == Some(RenderAll(StemFile(meta, netlist)))
  {
  }
}
