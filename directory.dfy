/** A directory as the code sees it through os.listdir, open, os.remove and os.makedirs: the
    names in listing order and what each name holds. */
module Directory {
  import opened Results

  /** A regular file with text content, a file whose bytes do not decode as text (reading it
      raises, writing over it and removing it work), or a sub-directory. */
  datatype Entry = File(content: string) | Undecodable | Folder

  datatype Dir = Dir(listing: seq<string>, entries: map<string, Entry>)

  const EmptyDir: Dir := Dir([], map[])

  /** What a name holds, if anything. */
  function EntryAt(d: Dir, n: string): Option<Entry> {
    if n in d.entries then Some(d.entries[n]) else None
  }

  predicate FolderAt(d: Dir, n: string) {
    n in d.entries && d.entries[n].Folder?
  }

  /** Every entry shows up in the listing. */
  ghost predicate Listed(d: Dir) {
    forall n :: n in d.entries ==> n in d.listing
  }

  /** The listing without n. */
  function Without(names: seq<string>, n: string): (r: seq<string>)
    ensures forall m :: m in r <==> m in names && m != n
    decreases |names|
  {
    if names == [] then []
    else
      assert forall m :: m in names <==> m == names[0] || m in names[1..];
      (if names[0] == n then [] else [names[0]]) + Without(names[1..], n)
  }

  /** os.remove: the name is gone from the listing and the directory. */
  function Delete(d: Dir, n: string): (r: Dir)
    ensures forall m :: EntryAt(r, m) == if m == n then None else EntryAt(d, m)
    ensures Listed(d) ==> Listed(r)
  {
    Dir(Without(d.listing, n), d.entries - {n})
  }

  /** Creating or overwriting n; a new name is listed last. */
  function Put(d: Dir, n: string, e: Entry): (r: Dir)
    ensures forall m :: EntryAt(r, m) == if m == n then Some(e) else EntryAt(d, m)
    ensures Listed(d) ==> Listed(r)
  {
    Dir(if n in d.listing then d.listing else d.listing + [n], d.entries[n := e])
  }
}
