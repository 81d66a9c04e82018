/**
 Reads a file backwards in chunks and yields its non-empty lines, last line first.

 What is left to read is always data[..offset] + chunk; each successful Scan takes
 exactly the last line off it, wherever the chunk boundaries fall.
 */
module BackScanning {
  import opened LogFile
  import opened LogLines
  import opened Options

  class BackScanner {
    const file: File
    const bufSize: nat
    var offset: nat
    var chunk: string
    var line: string
    var err: Option<IoError>

    ghost predicate Valid()
      reads this, file
    {
      offset <= |file.data|
    }

    // The part of the file no line has been taken from yet.
    ghost function Unread(): string
      requires Valid()
      reads this, file
    {
      file.data[..offset] + chunk
    }

    constructor (file: File, bufSize: nat)
      ensures Valid() && Unread() == file.data
      ensures err.None? && this.file == file && this.bufSize == bufSize
    {
      this.file, this.bufSize := file, bufSize;
      offset, chunk, line, err := |file.data|, "", "", None;
    }

    // Take the text after the last newline of the chunk, and that newline, off the chunk.
    method CutChunk(idx: nat)
      requires Valid() && idx == LastNewline(chunk)
      modifies this`chunk, this`line
      ensures Valid()
      ensures |Unread()| < |old(Unread())|
      ensures line == "" || IsLine(line)
      ensures Lines(old(Unread())) == Lines(Unread()) + if line == "" then [] else [line]
    {
      ghost var before := file.data[..offset];
      ghost var was := chunk;
      line := chunk[idx + 1..];
      chunk := chunk[..idx];
      assert was == chunk + [NEWLINE] + line;
      assert before + was == (before + chunk) + [NEWLINE] + line;
      LinesAcrossNewline(before + chunk, line);
      LinesOfPiece(line);
    }

    // The buffer holds the whole unread text and no newline: it is the first line.
    method TakeRest()
      requires Valid() && offset == 0 && chunk != "" && LastNewline(chunk) == -1
      modifies this`chunk, this`line
      ensures Valid() && Unread() == "" && IsLine(line)
      ensures Lines(old(Unread())) == [line]
    {
      assert Unread() == chunk;
      line, chunk := chunk, "";
      LinesOfPiece(line);
    }

    // Read the chunk before offset and put it in front of the buffer.
    method Prepend() returns (ok: bool)
      requires Valid() && offset > 0 && err.None?
      modifies this`offset, this`chunk, this`err
      ensures Valid()
      ensures Unread() == old(Unread())
      ensures ok ==> err.None? && offset < old(offset)
      ensures ok ==> offset + |chunk| == old(offset + |chunk|)
      ensures !ok && err.None? ==> bufSize == 0
    {
      var newOffset := if offset < bufSize then 0 else offset - bufSize;
      var buf, e := file.ReadAt(newOffset, offset - newOffset);
      if e.Some? {
        if e.value != EndOfFile {
          err := e;
        }
        return false;
      } else if |buf| == 0 {
        return false;
      }
      assert file.data[..offset] == file.data[..newOffset] + buf;
      chunk, offset := buf + chunk, newOffset;
      return true;
    }

    // Advance to the previous line. False when there is none, or a read failed.
    method Scan() returns (ok: bool)
      requires Valid()
      modifies this
      ensures Valid()
      ensures ok ==> IsLine(line) && Lines(old(Unread())) == Lines(Unread()) + [line]
      ensures ok ==> |Unread()| < |old(Unread())|
      ensures !ok && err.None? && bufSize >= 1 ==> Lines(old(Unread())) == []
      ensures ok ==> err.None?
    {
      if err.Some? {
        return false;
      }
      ghost var goal, size := Lines(Unread()), |Unread()|;
      while true
        invariant Valid() && err.None?
        invariant Lines(Unread()) == goal && |Unread()| <= size
        decreases offset + |chunk|
      {
        var idx := LastNewline(chunk);
        if idx >= 0 {
          CutChunk(idx);
          if line != "" {
            return true;
          }
          continue;
        }
        ghost var total := offset + |chunk|;
        while true
          invariant Valid() && err.None?
          invariant Lines(Unread()) == goal && |Unread()| <= size
          invariant offset + |chunk| == total && LastNewline(chunk) == -1
          decreases offset
        {
          if offset <= 0 {
            if chunk != "" {
              TakeRest();
              return true;
            }
            assert Unread() == "";
            return false;
          }
          var read := Prepend();
          if !read {
            return false;
          }
          idx := LastNewline(chunk);
          if idx >= 0 {
            CutChunk(idx);
            if line != "" {
              return true;
            }
            break;
          }
        }
      }
    }
  }

  ghost function Reversed(ls: seq<string>): (r: seq<string>) {
    if ls == [] then [] else [ls[|ls| - 1]] + Reversed(ls[..|ls| - 1])
  }

  lemma ReversedSnoc(done: seq<string>, ls: seq<string>, l: string)
    ensures done + Reversed(ls + [l]) == done + [l] + Reversed(ls)
  {
    assert (ls + [l])[..|ls|] == ls;
  }

  // The loop every user of the scanner runs: scan until there is no more.
  method Collect(file: File, bufSize: nat) returns (lines: seq<string>, err: Option<IoError>)
    requires bufSize >= 1
    ensures err.None? ==> lines == Reversed(Lines(file.data))
    ensures lines <= Reversed(Lines(file.data))
  {
    var s := new BackScanner(file, bufSize);
    lines := [];
    while true
      invariant s.Valid() && s.file == file && s.bufSize == bufSize && fresh(s)
      invariant lines + Reversed(Lines(s.Unread())) == Reversed(Lines(file.data))
      decreases |s.Unread()|
    {
      ghost var before := Lines(s.Unread());
      var ok := s.Scan();
      if !ok {
        break;
      }
      ReversedSnoc(lines, Lines(s.Unread()), s.line);
      lines := lines + [s.line];
    }
    err := s.err;
  }
}
