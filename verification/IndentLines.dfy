/** 123 link driver: the indented text that describes a folder tree, line by line. */
module IndentLines {
  import opened Results

  datatype Error = OddIndent | BadFileLine

  /** What a file line says: `[FileSize:][Modified:]Url`, and the name taken from the URL. */
  datatype FileInfo = FileInfo(url: string, name: string, size: int, modified: int)

  /** How the file lines read.  A line outside the map is one `parseFileLine` rejects; every
      line it accepts has a URL. */
  type FileLines = m: map<string, FileInfo> | forall line <- m :: m[line].url != ""

  /** A line that is not blank, with its level. */
  datatype Entry =
    | FolderLine(level: nat, name: string)
    | FileLine(level: nat, file: FileInfo)

  /** Characters that `strings.TrimSpace` removes. */
  predicate IsSpace(c: char) {
    || '\t' <= c <= '\r' || c == ' ' || c == '\U{0085}' || c == '\U{00A0}' || c == '\U{1680}'
    || '\U{2000}' <= c <= '\U{200A}' || c == '\U{2028}' || c == '\U{2029}' || c == '\U{202F}'
    || c == '\U{205F}' || c == '\U{3000}'
  }

  /** The code points with the Unicode property White_Space. */
  const WHITE_SPACE := {
    9, 10, 11, 12, 13, 32, 133, 160, 5760, 8192, 8193, 8194, 8195, 8196, 8197, 8198, 8199, 8200, 8201, 8202,
    8232, 8233, 8239, 8287, 12288}

  lemma SpacesAre(c: char)
    ensures IsSpace(c) <==> c as int in WHITE_SPACE
  {
  }

  function TrimLeft(s: string): (t: string)
    ensures t == "" || !IsSpace(t[0])
  {
    if s != "" && IsSpace(s[0]) then TrimLeft(s[1..]) else s
  }

  function TrimRight(s: string): (t: string)
    ensures t == "" || !IsSpace(t[|t| - 1])
  {
    if s != "" && IsSpace(s[|s| - 1]) then TrimRight(s[..|s| - 1]) else s
  }

  function TrimSpace(s: string): string {
    TrimRight(TrimLeft(s))
  }

  function LeadingSpaces(s: string): (n: nat)
    ensures n <= |s|
    ensures (forall i | 0 <= i < n :: s[i] == ' ') && (n < |s| ==> s[n] != ' ')
  {
    if s != "" && s[0] == ' ' then 1 + LeadingSpaces(s[1..]) else 0
  }

  predicate IsFolder(text: string) {
    text != "" && text[|text| - 1] == ':'
  }

  /** One line of the text: an error, nothing for a blank line, or an entry.  The indent is
      checked before the line is known to be blank. */
  function ReadLine(line: string, files: FileLines): Result<Option<Entry>, Error> {
    var indent := LeadingSpaces(line);
    var text := TrimSpace(line[indent..]);
    if indent % 2 != 0 then Err(OddIndent)
    else if text == "" then Ok(None)
    else if IsFolder(text) then Ok(Some(FolderLine(indent / 2, text[..|text| - 1])))
    else if text in files then Ok(Some(FileLine(indent / 2, files[text])))
    else Err(BadFileLine)
  }

  // ---------- What a line reads as ----------

  function Blanks(n: nat): string { seq(n, _ => ' ') }

  predicate AllSpace(s: string) {
    forall c <- s :: IsSpace(c)
  }

  /** No space at either end. */
  predicate Bare(text: string) {
    text != "" ==> !IsSpace(text[0]) && !IsSpace(text[|text| - 1])
  }

  /** A line is its indent, more space that is not blanks, the text proper, and space. */
  predicate Shaped(line: string, indent: nat, pad: string, text: string, tail: string) {
    && line == Blanks(indent) + (pad + text + tail)
    && (pad != "" ==> pad[0] != ' ') && AllSpace(pad) && AllSpace(tail) && Bare(text)
    && (text == "" ==> tail == "")
  }

  lemma {:induction false} TrimLeftOf(pad: string, rest: string)
    requires AllSpace(pad) && (rest != "" ==> !IsSpace(rest[0]))
    ensures TrimLeft(pad + rest) == rest
  {
    if pad == "" {
      assert pad + rest == rest;
    } else {
      assert (pad + rest)[1..] == pad[1..] + rest;
      TrimLeftOf(pad[1..], rest);
    }
  }

  lemma {:induction false} TrimRightOf(text: string, tail: string)
    requires AllSpace(tail) && (text != "" ==> !IsSpace(text[|text| - 1]))
    ensures TrimRight(text + tail) == text
  {
    if tail == "" {
      assert text + tail == text;
    } else {
      assert (text + tail)[..|text + tail| - 1] == text + tail[..|tail| - 1];
      TrimRightOf(text, tail[..|tail| - 1]);
    }
  }

  /** Trimming takes the space at both ends away and nothing else. */
  lemma TrimSpaceOf(pad: string, text: string, tail: string)
    requires AllSpace(pad) && AllSpace(tail) && Bare(text) && (text == "" ==> tail == "")
    ensures TrimSpace(pad + text + tail) == text
  {
    assert pad + text + tail == pad + (text + tail);
    TrimLeftOf(pad, text + tail);
    TrimRightOf(text, tail);
  }

  lemma {:induction false} SpaceBefore(s: string) returns (pad: string, rest: string)
    ensures s == pad + rest && AllSpace(pad) && (rest != "" ==> !IsSpace(rest[0]))
  {
    hide IsSpace;
    pad, rest := "", s;
    if s != "" && IsSpace(s[0]) {
      pad, rest := SpaceBefore(s[1..]);
      pad := [s[0]] + pad;
    }
  }

  lemma {:induction false} SpaceAfter(s: string) returns (text: string, tail: string)
    ensures s == text + tail && AllSpace(tail) && (text != "" ==> !IsSpace(text[|text| - 1]))
  {
    hide IsSpace;
    text, tail := s, "";
    if s != "" && IsSpace(s[|s| - 1]) {
      text, tail := SpaceAfter(s[..|s| - 1]);
      tail := tail + [s[|s| - 1]];
    }
  }

  /** Every line has that shape. */
  lemma LineShape(line: string) returns (indent: nat, pad: string, text: string, tail: string)
    ensures Shaped(line, indent, pad, text, tail)
  {
    hide IsSpace;
    indent := LeadingSpaces(line);
    assert line == Blanks(indent) + line[indent..];
    var rest;
    pad, rest := SpaceBefore(line[indent..]);
    text, tail := SpaceAfter(rest);
    assert pad + rest == pad + text + tail;
    assert tail != "" ==> tail[0] in tail;
  }

  /** What a line reads as, whatever its shape: an odd indent is an error even of a blank line; two blanks
      of indent are one level; a text with a colon at its end is a folder named by what stands before that
      colon, and any other text is a file line, or an error. */
  lemma LineReads(line: string, n: nat, odd: bool, pad: string, text: string, tail: string, files: FileLines)
    requires Shaped(line, if odd then 2 * n + 1 else 2 * n, pad, text, tail)
    ensures odd ==> ReadLine(line, files) == Err(OddIndent)
    ensures !odd && text == "" ==> ReadLine(line, files) == Ok(None)
    ensures forall name | !odd && text == name + ":" :: ReadLine(line, files) == Ok(Some(FolderLine(n, name)))
    ensures !odd && text != "" && text[|text| - 1] != ':' ==>
              ReadLine(line, files) == if text in files then Ok(Some(FileLine(n, files[text]))) else Err(BadFileLine)
  {
    var indent := if odd then 2 * n + 1 else 2 * n;
    assert LeadingSpaces(line) == indent by {
      assert forall i | 0 <= i < indent :: line[i] == Blanks(indent)[i];
      assert indent < |line| ==> line[indent] == (pad + text + tail)[0];
    }
    assert line[indent..] == pad + text + tail;
    TrimSpaceOf(pad, text, tail);
    hide TrimSpace, Shaped, LeadingSpaces;
    forall name | text == name + ":" ensures IsFolder(text) && text[..|text| - 1] == name {
    }
  }

  /** All entries of the text, or the error of the first line that has one. */
  function ReadAll(lines: seq<string>, files: FileLines): Result<seq<Entry>, Error> {
    if lines == [] then Ok([])
    else
      match ReadAll(lines[..|lines| - 1], files)
      case Err(e) => Err(e)
      case Ok(entries) =>
        match ReadLine(lines[|lines| - 1], files)
        case Err(e) => Err(e)
        case Ok(None) => Ok(entries)
        case Ok(Some(entry)) => Ok(entries + [entry])
  }

  /** An error in a line is the error of every text that starts with the lines up to it. */
  lemma {:induction false} FirstErrorWins(lines: seq<string>, n: nat, files: FileLines)
    requires n <= |lines| && ReadAll(lines[..n], files).Err?
    ensures ReadAll(lines, files) == ReadAll(lines[..n], files)
    decreases |lines|
  {
    if n < |lines| {
      assert lines[..|lines| - 1][..n] == lines[..n];
      FirstErrorWins(lines[..|lines| - 1], n, files);
    } else {
      assert lines[..n] == lines;
    }
  }

  lemma OneLine(line: string, files: FileLines)
    ensures ReadAll([line], files)
         == match ReadLine(line, files)
            case Err(e) => Err(e)
            case Ok(None) => Ok([])
            case Ok(Some(entry)) => Ok([entry])
  {
    hide ReadLine;
    var lines := [line];
    assert lines[..|lines| - 1] == [];
    var none: seq<Entry> := [];
    assert ReadAll([], files) == Ok(none);
    if ReadLine(line, files).Ok? && ReadLine(line, files).value.Some? {
      assert none + [ReadLine(line, files).value.value] == [ReadLine(line, files).value.value];
    }
  }

  /** A text reads as its two halves do, one after the other. */
  lemma {:induction false} ReadAllConcat(a: seq<string>, b: seq<string>, files: FileLines)
    ensures ReadAll(a + b, files)
         == if ReadAll(a, files).Err? then ReadAll(a, files)
            else if ReadAll(b, files).Err? then ReadAll(b, files)
            else Ok(ReadAll(a, files).value + ReadAll(b, files).value)
    decreases |b|
  {
    hide ReadLine;
    if b == [] {
      assert a + b == a;
      assert ReadAll(a, files).Ok? ==> ReadAll(a, files).value + [] == ReadAll(a, files).value;
    } else {
      assert (a + b)[..|a + b| - 1] == a + b[..|b| - 1];
      ReadAllConcat(a, b[..|b| - 1], files);
      if ReadAll(a + b, files).Ok? && ReadLine(b[|b| - 1], files).value.Some? {
        var entry := ReadLine(b[|b| - 1], files).value.value;
        assert ReadAll(a, files).value + (ReadAll(b[..|b| - 1], files).value + [entry])
            == ReadAll(a, files).value + ReadAll(b[..|b| - 1], files).value + [entry];
      }
    }
  }

  // ---------- Levels, and the parent a line must have ----------

  /** Node 0 is the root, above every line; node `i + 1` is entry `i`. */
  function Level(entries: seq<Entry>, i: nat): int
    requires i <= |entries|
  {
    if i == 0 then -1 else entries[i - 1].level
  }

  predicate IsFolderNode(entries: seq<Entry>, i: nat)
    requires i <= |entries|
  {
    i == 0 || entries[i - 1].FolderLine?
  }

  /** Node `p` is a folder still open at node `j`: its level is below that of every node after
      it up to `j`. */
  ghost predicate Open(entries: seq<Entry>, p: nat, j: nat)
    requires p <= |entries| && j <= |entries|
  {
    IsFolderNode(entries, p) && forall k | p < k <= j :: Level(entries, p) < Level(entries, k)
  }

  /** The parent of a line: the latest earlier folder open at it. */
  ghost predicate IsParent(entries: seq<Entry>, p: nat, j: nat)
    requires j <= |entries|
  {
    p < j && Open(entries, p, j) && forall q: nat | p < q < j :: !Open(entries, q, j)
  }

  /** The root is open at every line, so every line has a parent, and only one. */
  lemma {:induction false} ParentExists(entries: seq<Entry>, j: nat, from: nat) returns (p: nat)
    requires 0 < j <= |entries| && from <= j
    requires forall q: nat | from <= q < j :: !Open(entries, q, j)
    ensures IsParent(entries, p, j)
    decreases from
  {
    assert Open(entries, 0, j);
    if Open(entries, from - 1, j) {
      p := from - 1;
    } else {
      p := ParentExists(entries, j, from - 1);
    }
  }

  lemma ParentUnique(entries: seq<Entry>, p: nat, q: nat, j: nat)
    requires j <= |entries| && IsParent(entries, p, j) && IsParent(entries, q, j)
    ensures p == q
  {
  }
}
