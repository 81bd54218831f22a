/**
 The flat file table: a `File` value, the `Directory` that maps names to
 files, and the `FileSystem` that forwards every operation to its single
 root directory.
 */
module FileTable {
  import opened Optional

  /** A named content blob. */
  datatype File = File(name: string, content: string)

  /** Every entry is stored under its own name, as `addFile` builds it. */
  ghost predicate WellNamed(files: map<string, File>)
  {
    forall n :: n in files ==> files[n].name == n
  }

  /** The effect of `files[name] = make_shared<File>(name, content)`: an
      unconditional upsert. */
  function Upsert(files: map<string, File>, name: string, content: string): (r: map<string, File>)
    ensures r.Keys == files.Keys + {name}
    ensures name in r && r[name] == File(name, content)
    ensures forall n :: n in files && n != name ==> r[n] == files[n]
    ensures WellNamed(files) ==> WellNamed(r)
  {
    files[name := File(name, content)]
  }

  /** The guarded lookup of `getFile`: absent exactly when `name` is not a key. */
  function Lookup(files: map<string, File>, name: string): (r: Option<File>)
    ensures r.None? <==> name !in files
    ensures r.Some? ==> r.value == files[name]
  {
    if name in files then Some(files[name]) else None
  }

  /** Reading back what was just written yields that file; other names are
      unaffected. */
  lemma LookupUpsert(files: map<string, File>, name: string, content: string, other: string)
    ensures Lookup(Upsert(files, name, content), name) == Some(File(name, content))
    ensures other != name ==> Lookup(Upsert(files, name, content), other) == Lookup(files, other)
  {
  }

  /** An upsert adds one key when the name is new and none when it is present. */
  lemma UpsertSize(files: map<string, File>, name: string, content: string)
    ensures |Upsert(files, name, content)| == if name in files then |files| else |files| + 1
  {
    var r := Upsert(files, name, content);
    if name in files {
      assert r.Keys == files.Keys;
    } else {
      assert r.Keys == files.Keys + {name};
    }
  }

  /** A second upsert under the same name silently replaces the first. */
  lemma UpsertOverwrites(files: map<string, File>, name: string, first: string, second: string)
    ensures Upsert(Upsert(files, name, first), name, second) == Upsert(files, name, second)
  {
  }

  /** In a well-named table a found file carries the name it was looked up by. */
  lemma LookupName(files: map<string, File>, name: string)
    requires WellNamed(files)
    ensures Lookup(files, name).Some? ==> Lookup(files, name).value == File(name, files[name].content)
  {
  }

  class Directory {
    var files: map<string, File>

    ghost predicate Valid()
      reads this
    {
      WellNamed(files)
    }

    constructor ()
      ensures Valid() && files == map[]
    {
      files := map[];
    }

    /** `addFile`: upsert, leaving every other entry as it was. */
    method AddFile(name: string, content: string)
      requires Valid()
      modifies this
      ensures Valid()
      ensures files == Upsert(old(files), name, content)
    {
      files := files[name := File(name, content)];
    }

    /** `getFile`: the file stored under `name`, or `None` (the C++ `nullptr`)
        when there is none; the table is not touched. */
    method GetFile(name: string) returns (r: Option<File>)
      requires Valid()
      ensures r.None? <==> name !in files
      ensures r.Some? ==> r.value == File(name, files[name].content)
    {
      if name !in files {
        return None;
      }
      r := Some(files[name]);
    }

    /** `listFiles`: every name in the table, each exactly once, in no
        particular order. */
    method ListFiles() returns (names: seq<string>)
      ensures multiset(names) == multiset(files.Keys)
    {
      names := [];
      var rest := files.Keys;
      while rest != {}
        invariant rest <= files.Keys
        invariant multiset(names) + multiset(rest) == multiset(files.Keys)
        decreases rest
      {
        var n :| n in rest;
        names := names + [n];
        rest := rest - {n};
      }
    }
  }

  class FileSystem {
    const root: Directory

    ghost predicate Valid()
      reads root
    {
      root.Valid()
    }

    constructor ()
      ensures Valid() && fresh(root) && root.files == map[]
    {
      root := new Directory();
    }

    /** `createFile`: the root's `addFile`. */
    method CreateFile(name: string, content: string)
      requires Valid()
      modifies root
      ensures Valid()
      ensures root.files == Upsert(old(root.files), name, content)
    {
      root.AddFile(name, content);
    }

    /** `readFile`: the root's `getFile`; found and not found stay distinct. */
    method ReadFile(name: string) returns (r: Option<File>)
      requires Valid()
      ensures r == Lookup(root.files, name)
      ensures r.Some? ==> r.value.name == name
    {
      r := root.GetFile(name);
    }

    /** `listFiles`: the root's `listFiles`. */
    method ListFiles() returns (names: seq<string>)
      ensures multiset(names) == multiset(root.files.Keys)
    {
      names := root.ListFiles();
    }
  }
}
