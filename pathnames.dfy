/** The output name the Mayhem client gives a verified download: the input
    path with "_received" inserted before its extension, where the extension
    is what `os.path.splitext` (POSIX flavour, separator '/') splits off. */
module PathNames {

  /** `s.rfind(c)`: the index of the last c in s, or -1. */
  function RFind(s: string, c: char): (r: int)
    ensures -1 <= r < |s|
    ensures r >= 0 ==> s[r] == c
    ensures forall j | r < j < |s| :: s[j] != c
  {
    if s == [] then -1
    else if s[|s| - 1] == c then |s| - 1
    else RFind(s[..|s| - 1], c)
  }

  /** `os.path.splitext(p)`: the extension starts at the last '.' after the
      last '/', unless everything between that '/' and the dot is dots
      (so ".bashrc" and "..a" have no extension). */
  function SplitExt(p: string): (string, string)
  {
    var sepIndex := RFind(p, '/');
    var dotIndex := RFind(p, '.');
    if dotIndex > sepIndex && exists j | sepIndex + 1 <= j < dotIndex :: p[j] != '.'
    then (p[..dotIndex], p[dotIndex..])
    else (p, "")
  }

  /** `f"{base_name}_received{ext}"` with `base_name, ext = os.path.splitext(p)`. */
  function ReceivedPath(p: string): string
  {
    var (root, ext) := SplitExt(p);
    root + "_received" + ext
  }

  /** splitext splits p into two pieces that concatenate back to p; the
      extension is empty or one dot followed by neither a dot nor a '/'. */
  lemma SplitExtParts(p: string)
    ensures SplitExt(p).0 + SplitExt(p).1 == p
    ensures var ext := SplitExt(p).1;
      ext == "" || (ext[0] == '.' && forall j | 1 <= j < |ext| :: ext[j] != '.' && ext[j] != '/')
  {
    var sepIndex := RFind(p, '/');
    var dotIndex := RFind(p, '.');
    if dotIndex > sepIndex && exists j | sepIndex + 1 <= j < dotIndex :: p[j] != '.' {
      var ext := p[dotIndex..];
      forall j | 1 <= j < |ext| ensures ext[j] != '.' && ext[j] != '/' {
        assert ext[j] == p[dotIndex + j];
      }
    }
  }

  /** The output path is the input path with "_received" inserted at the
      start of its extension. */
  lemma ReceivedPathInsertsSuffix(p: string)
    ensures var k := |SplitExt(p).0|;
      k <= |p| && ReceivedPath(p) == p[..k] + "_received" + p[k..]
  {
    SplitExtParts(p);
    var (root, ext) := SplitExt(p);
    assert p[..|root|] == root && p[|root|..] == ext;
  }

  /** RFind is pinned down by where c occurs. */
  lemma RFindAt(s: string, c: char, k: int)
    requires -1 <= k < |s| && (k >= 0 ==> s[k] == c)
    requires forall j | k < j < |s| :: s[j] != c
    ensures RFind(s, c) == k
  {
  }

  /** A plain extension. */
  lemma ReceivedPathPlain()
    ensures ReceivedPath("x.bin") == "x_received.bin"
  {
    RFindAt("x.bin", '/', -1);
    RFindAt("x.bin", '.', 1);
    assert "x.bin"[0] != '.';
  }

  /** Only the last extension is split off. */
  lemma ReceivedPathLastExtension()
    ensures ReceivedPath("data/archive.tar.gz") == "data/archive.tar_received.gz"
  {
    RFindAt("data/archive.tar.gz", '/', 4);
    RFindAt("data/archive.tar.gz", '.', 16);
    assert "data/archive.tar.gz"[5] != '.';
  }

  /** A leading dot does not start an extension. */
  lemma ReceivedPathDotfile()
    ensures ReceivedPath(".bashrc") == ".bashrc_received"
  {
    RFindAt(".bashrc", '/', -1);
    RFindAt(".bashrc", '.', 0);
  }

  /** A dot in a directory name does not start an extension. */
  lemma ReceivedPathDottedDirectory()
    ensures ReceivedPath("v1.2/notes") == "v1.2/notes_received"
  {
    RFindAt("v1.2/notes", '/', 4);
    RFindAt("v1.2/notes", '.', 2);
  }
}
