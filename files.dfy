/** The two output files of the `encode` command: the raw input block and
    the records of the symbols that survived the lossy channel. */
module Files {
  import opened Types
  import opened Records

  /** The files by name. Which names can be opened for writing is fixed by
      the environment; a stream failure after a successful open is not
      modelled. */
  class FileSystem {
    const canOpen: string -> bool
    var files: map<string, Binary>

    constructor (canOpen: string -> bool, files: map<string, Binary>)
      ensures this.canOpen == canOpen && this.files == files
    {
      this.canOpen := canOpen;
      this.files := files;
    }

    /** `open(name, binary | out | trunc)`: on success the file exists and is
        empty; on failure nothing changes. */
    method Open(name: string) returns (ok: bool)
      modifies this
      ensures ok == canOpen(name)
      ensures files == if ok then old(files)[name := []] else old(files)
    {
      ok := canOpen(name);
      if ok {
        files := files[name := []];
      }
    }

    /** A write to the open stream of `name`. */
    method Append(name: string, bytes: Binary)
      requires name in files
      modifies this
      ensures files == old(files)[name := old(files)[name] + bytes]
    {
      files := files[name := files[name] + bytes];
    }
  }

  /** `bin2file(fname, data)`: the bytes, one by one, through an
      `ostream_iterator<uint8_t>`. */
  method Bin2File(fs: FileSystem, name: string, data: Binary) returns (ok: bool)
    modifies fs
    ensures ok == fs.canOpen(name)
    ensures fs.files == if ok then old(fs.files)[name := data] else old(fs.files)
  {
    ok := fs.Open(name);
    if !ok {
      return;
    }
    ghost var atOpen := fs.files;
    var i := 0;
    while i < |data|
      invariant 0 <= i <= |data|
      invariant fs.files == atOpen[name := data[..i]]
    {
      fs.Append(name, [data[i]]);
      assert data[..i + 1] == data[..i] + [data[i]];
      i := i + 1;
    }
    assert data[..|data|] == data;
  }

  /** `symbols2file(fname, data)`: the records, one by one, through an
      `ostream_iterator<Symbol>`. */
  method Symbols2File(fs: FileSystem, name: string, data: Symbols) returns (ok: bool)
    modifies fs
    ensures ok == fs.canOpen(name)
    ensures fs.files == if ok then old(fs.files)[name := SerializeSymbols(data)] else old(fs.files)
  {
    ok := fs.Open(name);
    if !ok {
      return;
    }
    ghost var atOpen := fs.files;
    var i := 0;
    assert SerializeSymbols(data[..0]) == [];
    while i < |data|
      invariant 0 <= i <= |data|
      invariant fs.files == atOpen[name := SerializeSymbols(data[..i])]
    {
      fs.Append(name, SerializeSymbol(data[i]));
      assert data[..i + 1] == data[..i] + [data[i]];
      SerializeConcat(data[..i], [data[i]]);
      assert SerializeSymbols([data[i]]) == SerializeSymbol(data[i]);
      i := i + 1;
    }
    assert data[..|data|] == data;
  }
}
