/** Serving a folder listing through a writer that may take only part of what it is given, from files read in chunks. */
module MetadataServer {
  import opened WireFormat

  const BUFFER_SIZE := 512 * 1024

  /** A file on disk: the size reported for it, and what reading it yields. */
  datatype DiskFile = DiskFile(size: int, content: Bytes)

  datatype Child = Child(id: Bytes, hasChildren: bool, size: int, metadataFiles: seq<Bytes>)

  const SLASH: byte := 47
  const DOT: byte := 46

  function WithoutTrailingSlashes(path: Bytes): Bytes {
    if path != [] && path[|path| - 1] == SLASH then WithoutTrailingSlashes(path[..|path| - 1]) else path
  }

  function AfterLastSlash(path: Bytes): Bytes {
    if path == [] || path[|path| - 1] == SLASH then [] else AfterLastSlash(path[..|path| - 1]) + [path[|path| - 1]]
  }

  /** `filepath.Base`. */
  function Base(path: Bytes): Bytes {
    if path == [] then [DOT]
    else
      var p := WithoutTrailingSlashes(path);
      if p == [] then [SLASH] else AfterLastSlash(p)
  }

  lemma {:induction false} TrailingSlashes(p: Bytes, slashes: Bytes)
    requires (forall i :: 0 <= i < |slashes| ==> slashes[i] == 47) && (p == [] || p[|p| - 1] != 47)
    ensures WithoutTrailingSlashes(p + slashes) == p
  {
    if slashes == [] {
      assert p + slashes == p;
    } else {
      var s := p + slashes;
      assert s[..|s| - 1] == p + slashes[..|slashes| - 1] && s[|s| - 1] == slashes[|slashes| - 1];
      TrailingSlashes(p, slashes[..|slashes| - 1]);
    }
  }

  lemma {:induction false} LastPart(dir: Bytes, name: Bytes)
    requires 47 !in name
    ensures AfterLastSlash(name) == name && AfterLastSlash(dir + [47] + name) == name
  {
    if name != [] {
      var init, last := name[..|name| - 1], name[|name| - 1];
      var path := dir + [47] + name;
      assert last in name && path[|path| - 1] == last && path[..|path| - 1] == dir + [47] + init;
      LastPart(dir, init);
      assert init + [last] == name;
    }
  }

  /** What a file is called: the last part of its path, whatever is in front of it and however many slashes follow. */
  lemma NameOfFile(dir: Bytes, name: Bytes, slashes: Bytes)
    requires name != [] && 47 !in name && forall i :: 0 <= i < |slashes| ==> slashes[i] == 47
    ensures Base(name + slashes) == name && Base(dir + [47] + name + slashes) == name
    ensures Base(slashes) == if slashes == [] then [46] else [47]
  {
    assert name[|name| - 1] in name;
    var path := dir + [47] + name;
    assert path[|path| - 1] == name[|name| - 1];
    TrailingSlashes(name, slashes);
    TrailingSlashes(path, slashes);
    TrailingSlashes([], slashes);
    assert [] + slashes == slashes;
    LastPart(dir, name);
  }

  type Disk = map<Bytes, DiskFile>

  /** Every file is there and has not changed between asking its size and reading it. */
  predicate Unchanged(paths: seq<Bytes>, disk: Disk) {
    forall i :: 0 <= i < |paths| ==> paths[i] in disk && disk[paths[i]].size == |disk[paths[i]].content|
  }

  predicate AllUnchanged(children: seq<Child>, disk: Disk) {
    forall i :: 0 <= i < |children| ==> Unchanged(children[i].metadataFiles, disk)
  }

  function FileViews(paths: seq<Bytes>, disk: Disk): seq<FileView>
    requires Unchanged(paths, disk)
  {
    seq(|paths|, i requires 0 <= i < |paths| => FileView(Base(paths[i]), disk[paths[i]].content))
  }

  function View(c: Child, disk: Disk): ChildView
    requires Unchanged(c.metadataFiles, disk)
  {
    ChildView(c.id, c.hasChildren, c.size, FileViews(c.metadataFiles, disk))
  }

  function Views(children: seq<Child>, disk: Disk): seq<ChildView>
    requires AllUnchanged(children, disk)
  {
    seq(|children|, i requires 0 <= i < |children| => View(children[i], disk))
  }

  class Response {
    /** The bytes the client has been sent. */
    var out: Bytes
    /** No write, size query, open or read has failed so far. */
    ghost var clean: bool

    constructor ()
      ensures out == [] && clean
    {
      out, clean := [], true;
    }

    /** The underlying writer: takes some of the bytes, at least one if it reports no error. */
    method Write(p: Bytes) returns (n: nat, failed: bool)
      modifies this
      ensures n <= |p| && out == old(out) + p[..n]
      ensures !failed && p != [] ==> n > 0
      ensures clean == (old(clean) && !failed)
    {
      failed := *;
      n :| 0 <= n <= |p| && (!failed && p != [] ==> n > 0);
      out := out + p[..n];
      clean := clean && !failed;
    }

    method WriteBytes(value: Bytes) returns (result: int)
      modifies this
      ensures old(out) <= out && (clean ==> old(clean))
      ensures result == -1 || result == |value|
      ensures result == -1 ==> !clean
      ensures result == |value| ==> clean == old(clean) && out == old(out) + value
    {
      var written := 0;
      assert value[..0] == [];
      while written < |value|
        invariant 0 <= written <= |value| && clean == old(clean)
        invariant out == old(out) + value[..written]
      {
        var n, failed := Write(value[written..]);
        if failed {
          return -1;
        }
        assert value[..written + n] == value[..written] + value[written..][..n];
        written := written + n;
      }
      assert value[..written] == value;
      return written;
    }

    method WriteString(value: Bytes) returns (result: int)
      modifies this
      ensures old(out) <= out && (clean ==> old(clean))
      ensures result == -1 || result == |value|
      ensures result == -1 ==> !clean
      ensures result == |value| ==> clean == old(clean) && out == old(out) + EncodeString(value)
    {
      var head := WriteBytes(Int32(|value|));
      if head < 0 {
        return -1;
      }
      var body := WriteBytes(value);
      if body < 0 {
        return -1;
      }
      return |value|;
    }

    /** Copies a file in chunks until at least `fileSize` bytes have been written; how many were. */
    method WriteFile(content: Bytes, fileSize: int) returns (written: nat)
      modifies this
      ensures old(out) <= out && (clean ==> old(clean))
      ensures written <= |content| && old(out) + content[..written] <= out
      ensures clean ==> fileSize <= written && out == old(out) + content[..written]
      ensures clean && fileSize == |content| ==> out == old(out) + content
    {
      written := 0;
      assert content[..0] == [];
      while written < fileSize
        invariant 0 <= written <= |content| && clean == old(clean)
        invariant out == old(out) + content[..written]
      {
        var failed: bool := *;
        if failed || written == |content| {
          clean := false;
          return;
        }
        var n :| 0 < n <= BUFFER_SIZE && n <= |content| - written;
        var result := WriteBytes(content[written..written + n]);
        if result < 0 {
          return;
        }
        assert content[..written + n] == content[..written] + content[written..written + n];
        written := written + n;
      }
      if fileSize == |content| {
        assert content[..written] == content;
      }
    }

    /** The files of one child. A failed copy is not noticed: the loop goes on to the next file. */
    method WriteMetadataFiles(paths: seq<Bytes>, disk: Disk) returns (result: int)
      modifies this
      ensures old(out) <= out && (clean ==> old(clean))
      ensures result == -1 || result == |paths|
      ensures result == -1 ==> !clean
      ensures clean && Unchanged(paths, disk) ==>
                out == old(out) + (Int32(|paths|) + EncodeFiles(FileViews(paths, disk)))
    {
      var count := WriteBytes(Int32(|paths|));
      if count < 0 {
        return -1;
      }
      ghost var start := out;
      var j := 0;
      while j < |paths|
        invariant 0 <= j <= |paths| && (clean ==> old(clean)) && start <= out && start == old(out) + Int32(|paths|)
        invariant clean && Unchanged(paths, disk) ==> out == start + EncodeFiles(FileViews(paths[..j], disk))
      {
        ghost var before := out;
        var name := WriteString(Base(paths[j]));
        if name < 0 {
          return -1;
        }
        if paths[j] !in disk {
          clean := false;
          return -1;
        }
        var size := WriteBytes(Int64(disk[paths[j]].size));
        if size < 0 {
          return -1;
        }
        var canOpen: bool := *;
        if !canOpen {
          clean := false;
          return -1;
        }
        var _ := WriteFile(disk[paths[j]].content, disk[paths[j]].size);
        if clean && Unchanged(paths, disk) {
          NextFile(paths, disk, j, start, before, out);
        }
        j := j + 1;
      }
      assert paths[..j] == paths;
      if clean && Unchanged(paths, disk) {
        Regroup(old(out), Int32(|paths|), EncodeFiles(FileViews(paths, disk)));
      }
      return |paths|;
    }

    /** The pieces of one child; the listing goes on even if its files could not be written. */
    method WriteChild(child: Child, disk: Disk) returns (ok: bool)
      modifies this
      ensures old(out) <= out && (clean ==> old(clean)) && (!ok ==> !clean)
      ensures clean && Unchanged(child.metadataFiles, disk) ==>
                out == ((old(out) + EncodeString(child.id)) + Int32(if child.hasChildren then 1 else 0))
                       + Int64(child.size)
                       + (Int32(|child.metadataFiles|) + EncodeFiles(FileViews(child.metadataFiles, disk)))
    {
      var id := WriteString(child.id);
      if id < 0 {
        return false;
      }
      var flag := WriteBytes(Int32(if child.hasChildren then 1 else 0));
      if flag < 0 {
        return false;
      }
      var size := WriteBytes(Int64(child.size));
      if size < 0 {
        return false;
      }
      var _ := WriteMetadataFiles(child.metadataFiles, disk);
      return true;
    }

    /** The response to a listing request. A child whose files could not be written is skipped over. */
    method ServeMetadata(children: seq<Child>, disk: Disk)
      modifies this
      ensures old(out) <= out
      ensures clean && AllUnchanged(children, disk) ==>
                out == old(out) + Encode(Views(children, disk))
    {
      var count := WriteBytes(Int32(|children|));
      if count < 0 {
        return;
      }
      ghost var start := out;
      ghost var allThere := AllUnchanged(children, disk);
      var i := 0;
      while i < |children|
        invariant 0 <= i <= |children| && start <= out && start == old(out) + Int32(|children|)
        invariant clean && allThere ==> out == start + EncodeChildren(Views(children[..i], disk))
      {
        ghost var before := out;
        var ok := WriteChild(children[i], disk);
        if !ok {
          return;
        }
        if clean && allThere {
          NextChild(children, disk, i, start, before, out);
        }
        i := i + 1;
      }
      assert children[..i] == children;
      if clean && allThere {
        Regroup(old(out), Int32(|children|), EncodeChildren(Views(children, disk)));
      }
    }
  }

  /** The client is shown the child as it is, its files under their last names and with their contents. */
  ghost predicate ShownAs(v: ChildView, c: Child, disk: Disk) {
    && v.id == c.id && v.hasChildren == c.hasChildren && v.size == c.size && |v.files| == |c.metadataFiles|
    && forall j :: 0 <= j < |v.files| ==> FileShownAs(v.files[j], c.metadataFiles[j], disk)
  }

  ghost predicate FileShownAs(f: FileView, path: Bytes, disk: Disk) {
    && path in disk && f.content == disk[path].content
    && forall dir: Bytes, name: Bytes :: name != [] && 47 !in name && (path == dir + [47] + name || path == name) ==>
         f.name == name
  }

  lemma ViewsShow(children: seq<Child>, disk: Disk)
    requires AllUnchanged(children, disk)
    ensures forall i :: 0 <= i < |children| ==> ShownAs(Views(children, disk)[i], children[i], disk)
  {
    forall i, j | 0 <= i < |children| && 0 <= j < |children[i].metadataFiles|
      ensures FileShownAs(View(children[i], disk).files[j], children[i].metadataFiles[j], disk)
    {
      var path := children[i].metadataFiles[j];
      assert Unchanged(children[i].metadataFiles, disk);
      forall dir: Bytes, name: Bytes | name != [] && 47 !in name && (path == dir + [47] + name || path == name)
        ensures Base(path) == name
      {
        NameOfFile(dir, name, []);
        assert dir + [47] + name + [] == dir + [47] + name && name + [] == name;
      }
    }
  }

  lemma FilePieces(f: FileView, before: Bytes)
    ensures ((before + EncodeString(f.name)) + Int64(|f.content|)) + f.content == before + EncodeFile(f)
  {
  }

  lemma NextFile(paths: seq<Bytes>, disk: Disk, j: nat, start: Bytes, before: Bytes, after: Bytes)
    requires Unchanged(paths, disk) && j < |paths|
    requires before == start + EncodeFiles(FileViews(paths[..j], disk))
    requires after == ((before + EncodeString(Base(paths[j]))) + Int64(disk[paths[j]].size)) + disk[paths[j]].content
    ensures after == start + EncodeFiles(FileViews(paths[..j + 1], disk))
  {
    var views, f := FileViews(paths[..j + 1], disk), FileView(Base(paths[j]), disk[paths[j]].content);
    assert views[..j] == FileViews(paths[..j], disk) && views[j] == f;
    FilePieces(f, before);
    Regroup(start, EncodeFiles(views[..j]), EncodeFile(f));
  }

  lemma ChildPieces(v: ChildView, before: Bytes)
    ensures ((before + EncodeString(v.id)) + Int32(if v.hasChildren then 1 else 0)) + Int64(v.size)
              + (Int32(|v.files|) + EncodeFiles(v.files)) == before + EncodeChild(v)
  {
  }

  lemma NextChild(children: seq<Child>, disk: Disk, i: nat, start: Bytes, before: Bytes, after: Bytes)
    requires AllUnchanged(children, disk) && i < |children|
    requires before == start + EncodeChildren(Views(children[..i], disk))
    requires var c := children[i];
             after == ((before + EncodeString(c.id)) + Int32(if c.hasChildren then 1 else 0)) + Int64(c.size)
                      + (Int32(|c.metadataFiles|) + EncodeFiles(FileViews(c.metadataFiles, disk)))
    ensures after == start + EncodeChildren(Views(children[..i + 1], disk))
  {
    var views, v := Views(children[..i + 1], disk), View(children[i], disk);
    assert views[..i] == Views(children[..i], disk) && views[i] == v;
    ChildPieces(v, before);
    Regroup(start, EncodeChildren(views[..i]), EncodeChild(v));
  }

  /** A client that received a clean response can recover the listing from it. */
  method ClientRecovers(response: Response, children: seq<Child>, disk: Disk)
    requires response.out == []
    modifies response
    ensures response.clean && AllUnchanged(children, disk) ==>
              (Decode(response.out) == Parsed(Views(children, disk), []) <==> Fits(Views(children, disk)))
    ensures response.clean && AllUnchanged(children, disk) && Fits(Views(children, disk)) ==>
              var shown := Decode(response.out);
              && shown.Parsed? && |shown.value| == |children|
              && forall i :: 0 <= i < |children| ==> ShownAs(shown.value[i], children[i], disk)
  {
    response.ServeMetadata(children, disk);
    if response.clean && AllUnchanged(children, disk) {
      var b := Encode(Views(children, disk));
      assert [] + b == b && b + [] == b;
      DecodeEncodeIff(Views(children, disk), []);
      ViewsShow(children, disk);
    }
  }
}
