/**
 * The few file-system facts the scripts depend on: whether a path exists,
 * whether it is a regular file the process may read, and what reading it
 * in text mode gives.  Paths are compared as written; symbolic links and
 * "." or ".." components are not resolved.
 */
module Files {
  import opened Bytes
  import opened Outcomes
  import opened Lines
  import Utf8

  /** A path that exists: a directory, or a regular file with its octets
      and whether the process may read it. */
  datatype FileState = Directory | Regular(data: seq<byte>, readable: bool)

  /** A path not in the map does not exist. */
  type FileSystem = map<string, FileState>

  /** open(path, "r").read() on a path that exists: open() fails on a
      directory or an unreadable file (an OSError nobody catches), the
      octets are decoded as UTF-8 and newlines are translated. */
  function ReadText(f: FileState): (r: Step<string>)
    ensures r.Next? <==> f.Regular? && f.readable && Utf8.Decode(f.data).Some?
    ensures r.Next? ==> NoCarriageReturn(r.value)
  {
    match f
    case Directory => Stop(Crash(FileError))
    case Regular(data, readable) =>
      if !readable then Stop(Crash(FileError))
      else
        match Utf8.Decode(data)
        case None => Stop(Crash(UnicodeError))
        case Some(text) => Next(TranslateNewlines(text))
  }

  /** A readable file holding the UTF-8 encoding of a text without carriage
      returns reads back as that text. */
  lemma ReadWritten(s: string)
    requires NoCarriageReturn(s)
    ensures ReadText(Regular(Utf8.Encode(s), true)) == Next(s)
  {
    Utf8.DecodeEncode(s);
    TranslateWithoutCarriageReturn(s);
  }

  /** A read fails with an exception exactly when it does not succeed. */
  lemma ReadFailures(f: FileState)
    ensures ReadText(f).Stop? ==> ReadText(f).status.Crash?
    ensures ReadText(f).Stop? && f.Regular? && f.readable ==> ReadText(f).status == Crash(UnicodeError)
  {
  }
}
