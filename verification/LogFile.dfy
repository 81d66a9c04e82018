/** The file operations the log rotation uses. Any of them may fail. */
module LogFile {
  import opened Options

  datatype IoError = EndOfFile | NegativeOffset | ReadFailed | ShortRead | WriteFailed | TruncateFailed

  class File {
    var data: string

    constructor (content: string)
      ensures data == content
    {
      data := content;
    }

    // io.ReaderAt: fills n bytes from pos, or reports why it could not.
    method ReadAt(pos: int, n: nat) returns (buf: string, err: Option<IoError>)
      ensures err.None? ==> 0 <= pos && pos + n <= |data| && buf == data[pos..pos + n]
      ensures err == Some(EndOfFile) ==> pos + n > |data|
    {
      var broken: bool := *;
      buf := "";
      if pos < 0 {
        err := Some(NegativeOffset);
      } else if pos + n > |data| {
        err := Some(EndOfFile);
      } else if broken {
        err := Some(ReadFailed);
      } else {
        buf, err := data[pos..pos + n], None;
      }
    }

    // io.WriterAt, over bytes the file already has.
    method WriteAt(buf: string, pos: nat) returns (err: Option<IoError>)
      requires pos + |buf| <= |data|
      modifies this
      ensures err.None? ==> data == old(data)[..pos] + buf + old(data)[pos + |buf|..]
      ensures |data| == |old(data)|
    {
      var broken: bool := *;
      if broken {
        err := Some(WriteFailed);
      } else {
        data, err := data[..pos] + buf + data[pos + |buf|..], None;
      }
    }

    method Truncate(size: nat) returns (err: Option<IoError>)
      requires size <= |data|
      modifies this
      ensures data == if err.None? then old(data)[..size] else old(data)
    {
      var broken: bool := *;
      if broken {
        err := Some(TruncateFailed);
      } else {
        data, err := data[..size], None;
      }
    }
  }
}
