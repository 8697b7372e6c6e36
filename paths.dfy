/**
 * POSIX paths as `pathlib.PurePosixPath` holds them: rooted or relative, and
 * the list of their parts, with empty and "." segments dropped.
 */
module Paths {
  import Text

  datatype Path = Path(absolute: bool, parts: seq<string>)

  /** The parts of a path string: the "/"-separated fields that are neither empty nor ".". */
  function Segments(fields: seq<string>): (parts: seq<string>)
    ensures |parts| <= |fields|
    ensures forall i :: 0 <= i < |parts| ==> parts[i] in fields && parts[i] != "" && parts[i] != "."
  {
    if |fields| == 0 then []
    else if fields[0] == "" || fields[0] == "." then Segments(fields[1..])
    else [fields[0]] + Segments(fields[1..])
  }

  /** `Path(s)`; `Path("")` is the relative path ".". */
  function ParsePath(s: string): (p: Path)
    ensures p.absolute <==> |s| > 0 && s[0] == '/'
    ensures forall i :: 0 <= i < |p.parts| ==> p.parts[i] != "" && p.parts[i] != "." && '/' !in p.parts[i]
  {
    Path(|s| > 0 && s[0] == '/', Segments(Text.Split(s, '/')))
  }

  /** `p.name`: the last part, or "" for a path without parts such as "/". */
  function Name(p: Path): (n: string)
    ensures |p.parts| > 0 ==> n == p.parts[|p.parts| - 1]
    ensures |p.parts| == 0 ==> n == ""
  {
    if |p.parts| == 0 then "" else p.parts[|p.parts| - 1]
  }

  /** `p.joinpath(name)` for a single part; joining "" leaves the path as it is. */
  function JoinName(p: Path, name: string): (q: Path)
    ensures q.absolute == p.absolute
    ensures name == "" ==> q == p
    ensures name != "" ==> |q.parts| == |p.parts| + 1 && q.parts[..|p.parts|] == p.parts && Name(q) == name
  {
    if name == "" then p else Path(p.absolute, p.parts + [name])
  }

  /** The last kept segment is the last part. */
  lemma {:induction false} SegmentsLast(fields: seq<string>)
    requires |fields| > 0 && fields[|fields| - 1] != "" && fields[|fields| - 1] != "."
    ensures |Segments(fields)| > 0 && Segments(fields)[|Segments(fields)| - 1] == fields[|fields| - 1]
  {
    if |fields| > 1 {
      SegmentsLast(fields[1..]);
      assert fields[1..][|fields| - 2] == fields[|fields| - 1];
    }
  }

  /** The name of a parsed path is its last "/"-field, when that is neither empty nor ".". */
  lemma NameOfParsedPath(s: string)
    ensures var fields := Text.Split(s, '/');
      fields[|fields| - 1] != "" && fields[|fields| - 1] != "." ==> Name(ParsePath(s)) == fields[|fields| - 1]
  {
    var fields := Text.Split(s, '/');
    var last := fields[|fields| - 1];
    if last != "" && last != "." {
      SegmentsLast(fields);
      var parts := Segments(fields);
      assert ParsePath(s).parts == parts;
      assert Name(ParsePath(s)) == parts[|parts| - 1];
    }
  }

  /** The local filesystem as the backend queries it: `Path.resolve()` and `Path.is_dir()`. */
  datatype HostFs = HostFs(resolve: string -> Path, isDir: Path -> bool)
}
