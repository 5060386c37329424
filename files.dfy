/** The file a reader reads and a writer writes: whether it exists and, when it
    does, its text. Opening and writing change it in place. */
module Files {

  /** The modes the writers pass to `open`: 'a+' (the default) and 'w'. */
  datatype Mode = Append | Truncate

  class TextFile {
    var present: bool
    var content: string

    constructor (present: bool, content: string)
      ensures this.present == present && this.content == content
    {
      this.present := present;
      this.content := content;
    }

    /** Opening for writing creates a missing file; 'w' also empties an existing one. */
    method Open(mode: Mode)
      modifies this
      ensures present
      ensures content == if mode == Truncate || !old(present) then "" else old(content)
    {
      if mode == Truncate || !present {
        content := "";
      }
      present := true;
    }

    /** Each write goes after what the file already holds. */
    method Write(s: string)
      requires present
      modifies this
      ensures present && content == old(content) + s
    {
      content := content + s;
    }
  }
}
