/** The serving directory as the two file-system calls of the handlers see
    it: files keyed by the directory and file name that `filepath.Join`
    combines, what `os.ReadFile` gives back, and the call `os.WriteFile`
    makes. */
module Disk {

  type Store = map<(string, string), string>

  /** What `os.ReadFile` returned: the file's bytes, or a failure. */
  datatype ReadResult = Contents(data: string) | ReadFailed

  /** What `os.WriteFile` returned. */
  datatype WriteResult = WriteOk | WriteFailed

  /** A call of `os.WriteFile`: the serving directory, the file name, and
      the bytes written. */
  datatype FileWrite = FileWrite(directory: string, filename: string, data: string)

  /** `os.ReadFile` on the joined path: the stored bytes, or a failure when
      there is no such file (or it cannot be read, which the store shows by
      leaving the name out). */
  function ReadFile(store: Store, directory: string, filename: string): (r: ReadResult)
    ensures r.ReadFailed? <==> (directory, filename) !in store
    ensures r.Contents? ==> r.data == store[(directory, filename)]
  {
    if (directory, filename) in store then Contents(store[(directory, filename)]) else ReadFailed
  }

  /** The store after a successful `os.WriteFile`, which creates the file or
      replaces its contents: the written file now reads back as the written
      bytes, and every other file reads as before. */
  function Apply(store: Store, w: FileWrite): (r: Store)
    ensures ReadFile(r, w.directory, w.filename) == Contents(w.data)
    ensures forall d, n :: (d, n) != (w.directory, w.filename) ==> ReadFile(r, d, n) == ReadFile(store, d, n)
  {
    store[(w.directory, w.filename) := w.data]
  }
}
