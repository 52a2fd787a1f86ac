/**
 The state the two memory filesystems share: the node store, the counter of
 file descriptors, and the table of open files. An open-file record keeps the
 path the file was opened under; the node is looked up under that path when
 the descriptor is used.
 */
module MemoryBase {
  import opened Wrappers
  import opened Dicts
  import opened Nodes
  import JsonFs
  import Bits
  import Numerals

  datatype Fs = Fs(store: Store, fd: nat, files: map<nat, string>)

  /** The filesystem after an operation and the operation's outcome. */
  datatype Outcome<T> = Outcome(fs: Fs, result: Result<T, Error>)

  /** Every recorded descriptor is one that has been handed out. */
  predicate Handed(fs: Fs)
  {
    forall h :: h in fs.files ==> 1 <= h <= fs.fd
  }

  /** The root mode of an empty start, `str(S_IFDIR | 0o755)`. */
  function RootMode(): string
  {
    Numerals.IntToString(Bits.BitOr(Bits.S_IFDIR, 0x1ED))
  }

  /** A file or symlink whose content is absent or null gets empty text. */
  function Normalised(n: Node): (r: Node)
    ensures r.kind == n.kind && r.children == n.children && r.attrs == n.attrs && r.xattrs == n.xattrs
    ensures n.kind != Directory && (n.content.Missing? || n.content.Null?) ==> r.content == Text("")
    ensures !(n.kind != Directory && (n.content.Missing? || n.content.Null?)) ==> r == n
  {
    if n.kind != Directory && (n.content.Missing? || n.content.Null?) then n.(content := Text("")) else n
  }

  /** No file or symlink of the store lacks content. */
  predicate NoneFree(s: Store)
  {
    forall k :: k in s.entries && s.entries[k].kind != Directory ==> s.entries[k].content.Text? || s.entries[k].content.Bytes?
  }

  /** `MemoryBase(initial_data)`: a non-empty store has its files and symlinks
      given empty text where they lack content, in place; otherwise the store
      is a fresh root with mode `S_IFDIR | 0o755`. No descriptor is open. */
  function Init(initial: Store): (fs: Fs)
    requires ValidStore(initial)
    ensures ValidStore(fs.store) && fs.fd == 0 && fs.files == map[] && Handed(fs)
    ensures |initial.keys| > 0 ==> fs.store.keys == initial.keys && NoneFree(fs.store)
    ensures |initial.keys| > 0 ==> forall k :: k in initial.entries ==> fs.store.Get(k) == Some(Normalised(initial.entries[k]))
    ensures |initial.keys| == 0 ==> fs.store.keys == ["/"]
    ensures |initial.keys| == 0 ==>
              fs.store.Get("/") == Some(JsonFs.RootNode().(attrs := Empty<string, string>().Put("st_mode", RootMode())))
  {
    if |initial.keys| > 0 then
      var s := MapValues(initial, Normalised);
      assert ValidStore(s) by {
        forall k | k in s.entries ensures s.entries[k].Valid() {
          assert s.entries[k] == Normalised(initial.entries[k]);
        }
      }
      Fs(s, 0, map[])
    else
      var root := JsonFs.RootNode().(attrs := Empty<string, string>().Put("st_mode", RootMode()));
      var s0 := JsonFs.Init();
      PutValid(s0, "/", root);
      Fs(s0.Put("/", root), 0, map[])
  }

  /** Normalising twice is normalising once. */
  lemma NormalisedIdempotent(n: Node)
    ensures Normalised(Normalised(n)) == Normalised(n)
  {
  }

  /** Starting from a normalised store changes nothing but the counters. */
  lemma InitNormalisedStore(s: Store)
    requires ValidStore(s) && |s.keys| > 0 && NoneFree(s)
    ensures Init(s).store == s
  {
    var r := Init(s).store;
    assert r.entries == s.entries by {
      forall k | k in s.entries ensures r.entries[k] == s.entries[k] {
        assert Normalised(s.entries[k]) == s.entries[k];
      }
    }
  }

  /** Records a new descriptor for `path`: the counter moves on by one and the
      new descriptor, which no record held before, now names `path`. */
  function Record(fs: Fs, path: string): (r: Outcome<nat>)
    ensures r.fs.store == fs.store && r.fs.fd == fs.fd + 1 && r.result == Ok(fs.fd + 1)
    ensures Handed(fs) ==> Handed(r.fs) && fs.fd + 1 !in fs.files
    ensures r.fs.files == fs.files[fs.fd + 1 := path]
  {
    Outcome(Fs(fs.store, fs.fd + 1, fs.files[fs.fd + 1 := path]), Ok(fs.fd + 1))
  }

  /** `release(path, fh)`: forgets the descriptor, if recorded, and returns 0. */
  function Release(fs: Fs, fh: nat): (r: Outcome<int>)
    ensures r.result == Ok(0) && r.fs.store == fs.store && r.fs.fd == fs.fd
    ensures r.fs.files.Keys == fs.files.Keys - {fh}
    ensures forall h :: h in r.fs.files ==> r.fs.files[h] == fs.files[h]
    ensures Handed(fs) ==> Handed(r.fs)
  {
    Outcome(Fs(fs.store, fs.fd, fs.files - {fh}), Ok(0))
  }

  /** Releasing the descriptor just recorded restores the open-file table. */
  lemma RecordThenRelease(fs: Fs, path: string)
    requires Handed(fs)
    ensures var o := Record(fs, path).fs;
            Release(o, fs.fd + 1).fs == fs.(fd := fs.fd + 1)
  {
    var o := Record(fs, path).fs;
    assert fs.fd + 1 !in fs.files;
    assert o.files - {fs.fd + 1} == fs.files;
  }

  /** The node an open-file record leads to: the node now stored under the
      recorded path. */
  function Held(fs: Fs, fh: nat): (r: Result<Node, Error>)
    requires fh in fs.files
    ensures r.Ok? <==> JsonFs.Find(fs.store, fs.files[fh]).Ok? && JsonFs.Find(fs.store, fs.files[fh]).value.Some?
    ensures r.Ok? ==> r.value == fs.store.entries[JsonFs.FindKey(fs.files[fh])]
  {
    match JsonFs.Find(fs.store, fs.files[fh])
    case Err(e) => Err(e)
    case Ok(None) => Err(NoEntry)
    case Ok(Some(n)) => Ok(n)
  }
}
