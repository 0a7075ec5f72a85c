/**
 The scratch text file `searchfile.txt` that the blast clearance script uses
 to accumulate its search clause. Only what the script relies on is modelled:
 the file's contents as a string, truncation when it is opened in mode "w",
 appending when it is opened in mode "a", and reading it back whole.
 */
module TextFiles {

  /** A text file on disk, seen as its current contents. */
  datatype TextFile = TextFile(contents: string)

  /** Opening a file in mode "w" empties it, whatever it held before. */
  function OpenForWrite(f: TextFile): TextFile
  {
    TextFile("")
  }

  /** Writing to a file opened in mode "w" or "a" adds text at its end. */
  function Write(f: TextFile, text: string): TextFile
  {
    TextFile(f.contents + text)
  }

  /** Reading a file opened in mode "r" yields everything it holds. */
  function Read(f: TextFile): string
  {
    f.contents
  }
}
