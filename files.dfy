/** The part of `java.io.File` and the file streams the app uses, over a
    file system held as a map from absolute path to node. */
module Files {
  import opened Wrappers
  import opened Paths
  import opened Zip

  /** What a path holds: a directory, a file of bytes, or one of the two
      kinds of document the export writes. */
  datatype Node =
    | Directory
    | Blob(data: Bytes)
    | ZipFile(entries: seq<Entry>)
    | TextFile(text: string)

  /** The directories above `p`, nearest first. */
  function Ancestors(p: Path): set<Path>
    decreases |p|
  {
    match Parent(p)
    case None => {}
    case Some(q) => {q} + Ancestors(q)
  }

  /** `m` has every node of `n`, unchanged. */
  predicate Extends(m: map<Path, Node>, n: map<Path, Node>) {
    forall q :: q in n ==> q in m && m[q] == n[q]
  }

  /** Something other than a directory sits above `p`, so `mkdirs` cannot
      create it. */
  predicate Blocked(nodes: map<Path, Node>, p: Path) {
    exists q :: q in Ancestors(p) && q in nodes && !nodes[q].Directory?
  }

  /** `if (!dir.exists()) dir.mkdirs()`: creates `p` and every missing
      directory above it, unless `p` exists or is blocked. */
  function MakeDirs(nodes: map<Path, Node>, p: Path): (m: map<Path, Node>)
    ensures Extends(m, nodes)
    ensures p in m || Blocked(m, p)
    ensures m != nodes ==> p in m && m[p] == Directory
  {
    if p in nodes || Blocked(nodes, p) then nodes
    else nodes + map q | q in Ancestors(p) + {p} && q !in nodes :: Directory
  }

  /** Once `MakeDirs(n, p)` has run, running it again on any later state
      that kept those nodes changes nothing. */
  lemma MakeDirsSettles(n: map<Path, Node>, m: map<Path, Node>, p: Path)
    requires Extends(m, MakeDirs(n, p))
    ensures MakeDirs(m, p) == m
  {
    if p !in m {
      var q :| q in Ancestors(p) && q in MakeDirs(n, p) && !MakeDirs(n, p)[q].Directory?;
      assert q in m && !m[q].Directory?;
    }
  }

  /** `new FileOutputStream(p)` can open the path: it is not a directory and
      its parent directory exists. */
  predicate CanCreate(nodes: map<Path, Node>, p: Path) {
    && !(p in nodes && nodes[p].Directory?)
    && match Parent(p)
       case None => true
       case Some(d) => d in nodes && nodes[d].Directory?
  }

  predicate HasChildren(nodes: map<Path, Node>, p: Path) {
    exists q :: q in nodes && Parent(q) == Some(p)
  }

  /** `File(p).delete()`: removes a file or an empty directory. */
  function Deleted(nodes: map<Path, Node>, p: Path): map<Path, Node> {
    if p in nodes && !(nodes[p].Directory? && HasChildren(nodes, p)) then nodes - {p} else nodes
  }

  /** Deleting touches no other path, removes an existing file, and leaves
      a missing path missing. */
  lemma DeletedEffect(nodes: map<Path, Node>, p: Path)
    ensures forall q :: q != p ==> (q in Deleted(nodes, p) <==> q in nodes)
    ensures forall q :: q != p && q in nodes ==> Deleted(nodes, p)[q] == nodes[q]
    ensures p in nodes && !nodes[p].Directory? ==> p !in Deleted(nodes, p)
    ensures p !in nodes ==> Deleted(nodes, p) == nodes
  {
  }

  /** Writing a path twice keeps the second write. */
  lemma UpdateTwice(nodes: map<Path, Node>, p: Path, first: Node, second: Node)
    ensures nodes[p := first][p := second] == nodes[p := second]
  {
  }

  class FileSystem {
    var nodes: map<Path, Node>

    constructor (nodes: map<Path, Node>)
      ensures this.nodes == nodes
    {
      this.nodes := nodes;
    }

    /** `File(p).exists()`. */
    predicate Exists(p: Path)
      reads this
    {
      p in nodes
    }

    /** `File(p).mkdirs()`. */
    method Mkdirs(p: Path) returns (created: bool)
      modifies this
      ensures created <==> p !in old(nodes) && !Blocked(old(nodes), p)
      ensures nodes == (if created then MakeDirs(old(nodes), p) else old(nodes))
    {
      created := p !in nodes && !Blocked(nodes, p);
      if created {
        nodes := MakeDirs(nodes, p);
      }
    }

    /** `File(p).delete()`. */
    method Delete(p: Path) returns (deleted: bool)
      modifies this
      ensures nodes == Deleted(old(nodes), p)
      ensures deleted <==> p in old(nodes) && p !in nodes
    {
      deleted := p in nodes && !(nodes[p].Directory? && HasChildren(nodes, p));
      nodes := Deleted(nodes, p);
    }

    /** `new FileOutputStream(p)`: creates or empties the file, or throws
      `FileNotFoundException` (`false`). */
    method Create(p: Path) returns (ok: bool)
      modifies this
      ensures ok == CanCreate(old(nodes), p)
      ensures nodes == if ok then old(nodes)[p := Blob([])] else old(nodes)
    {
      ok := CanCreate(nodes, p);
      if ok {
        nodes := nodes[p := Blob([])];
      }
    }

    /** `write(buffer, 0, length)` on an open file stream. */
    method Append(p: Path, chunk: Bytes)
      requires p in nodes && nodes[p].Blob?
      modifies this
      ensures nodes == old(nodes)[p := Blob(old(nodes)[p].data + chunk)]
    {
      nodes := nodes[p := Blob(nodes[p].data + chunk)];
    }

    /** Closing a stream that wrote a whole document. */
    method Store(p: Path, document: Node)
      requires p in nodes && !nodes[p].Directory? && !document.Directory?
      modifies this
      ensures nodes == old(nodes)[p := document]
    {
      nodes := nodes[p := document];
    }

    /** `File(p).inputStream().readBytes()`, or `None` where opening or
        reading throws. */
    method Read(p: Path) returns (data: Option<Bytes>)
      ensures data.Some? <==> p in nodes && nodes[p].Blob?
      ensures data.Some? ==> data.value == nodes[p].data
    {
      if p in nodes && nodes[p].Blob? {
        data := Some(nodes[p].data);
      } else {
        data := None;
      }
    }
  }
}
