/** Directory listings as the bot reads them: a listing is an input, each
    entry a name and whether it is a directory. */
module Files {
  import opened Text

  datatype DirEntry = DirEntry(name: string, isDir: bool)

  const DbSuffix := ".db"

  /** A plain file whose name ends in `.db`. */
  predicate IsDbFile(e: DirEntry) {
    !e.isDir && HasSuffix(e.name, DbSuffix)
  }

  /** The name without its `.db` ending: the phone number it belongs to. */
  function Stem(e: DirEntry): (s: string)
    requires IsDbFile(e)
    ensures s + DbSuffix == e.name
  {
    TrimSuffix(e.name, DbSuffix)
  }

  /** The write-ahead-log and shared-memory companions of a database never
      end in `.db`. */
  lemma CompanionFilesAreNotDb(e: DirEntry)
    requires HasSuffix(e.name, "-shm") || HasSuffix(e.name, "-wal")
    ensures !IsDbFile(e)
  {
    var n := |e.name|;
    assert e.name[n - 1] in "ml" by {
      if HasSuffix(e.name, "-shm") {
        assert e.name[n - 4..][3] == e.name[n - 1];
      } else {
        assert e.name[n - 4..][3] == e.name[n - 1];
      }
    }
    assert e.name[n - 3..][2] == e.name[n - 1];
  }
}
