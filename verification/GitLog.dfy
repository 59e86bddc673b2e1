/** src/chips/harvester/git_reader.py: the log format handed to git, and the parser that reads it back. */
module GitLog {
  import opened Sums
  import opened Text
  import opened Signals
  import opened GitReader

  const FILE_SEP := "---"

  // ---- The printer: "===%n%H|%an|%aI|%s%n---", then the name list of --name-only ----

  function Header(c: CommitRecord): string {
    c.sha + "|" + c.author + "|" + c.committedAt + "|" + c.message
  }

  function Names(files: seq<string>): string {
    if files == [] then "" else files[0] + "\n" + Names(files[1..])
  }

  /** What follows "===" for one commit. */
  function Block(c: CommitRecord): string {
    "\n" + Header(c) + "\n" + FILE_SEP + "\n" + (if c.filesChanged == [] then "" else "\n" + Names(c.filesChanged))
  }

  function Print(commits: seq<CommitRecord>): string {
    if commits == [] then "" else SEP + Block(commits[0]) + Print(commits[1..])
  }

  // ---- The parser ----

  function FilesOf(lines: seq<string>, inFiles: bool): seq<string> {
    if lines == [] then []
    else
      var line := Strip(lines[0]);
      if line == FILE_SEP then FilesOf(lines[1..], true)
      else (if inFiles && line != [] then [line] else []) + FilesOf(lines[1..], inFiles)
  }

  function ParseBlock(block: string): Option<CommitRecord> {
    var text := Strip(block);
    if text == [] then None
    else
      SomeLines(text, []);
      var lines := SplitLines(text, []);
      var header := Strip(lines[0]);
      if header == [] then None
      else
        var parts := SplitBar(header, 3, []);
        if |parts| < 4 then None
        else Some(CommitRecord(Strip(parts[0]), Strip(parts[1]), Strip(parts[2]), Strip(parts[3]),
                               FilesOf(lines[1..], false)))
  }

  function Commits(): string -> seq<CommitRecord> {
    (block: string) => match ParseBlock(block) case None => [] case Some(c) => [c]
  }

  function Parse(raw: string): seq<CommitRecord> {
    Collect(SplitSep(Strip(raw), []), Commits())
  }

  /** The two loops of the source. */
  method ParseLog(raw: string) returns (commits: seq<CommitRecord>)
    ensures commits == Parse(raw)
  {
    commits := [];
    var blocks := SplitSep(Strip(raw), []);
    var i := 0;
    while i < |blocks|
      invariant 0 <= i <= |blocks|
      invariant commits == Collect(blocks[..i], Commits())
    {
      CollectStep(blocks, i, Commits());
      var block := Strip(blocks[i]);
      i := i + 1;
      if block == [] {
        continue;
      }
      SomeLines(block, []);
      var lines := SplitLines(block, []);
      var header := Strip(lines[0]);
      if header == [] {
        continue;
      }
      var parts := SplitBar(header, 3, []);
      if |parts| < 4 {
        continue;
      }
      var files := ReadFiles(lines[1..]);
      commits := commits + [CommitRecord(Strip(parts[0]), Strip(parts[1]), Strip(parts[2]), Strip(parts[3]), files)];
    }
    assert blocks[..i] == blocks;
  }

  method ReadFiles(lines: seq<string>) returns (files: seq<string>)
    ensures files == FilesOf(lines, false)
  {
    files := [];
    var inFiles := false;
    var i := 0;
    while i < |lines|
      invariant 0 <= i <= |lines|
      invariant files + FilesOf(lines[i..], inFiles) == FilesOf(lines, false)
    {
      assert lines[i..][1..] == lines[i + 1..];
      var line := Strip(lines[i]);
      if line == FILE_SEP {
        inFiles := true;
        i := i + 1;
        continue;
      }
      Extended(files, if inFiles && line != [] then [line] else [], FilesOf(lines[i + 1..], inFiles));
      if inFiles && line != [] {
        files := files + [line];
      } else {
        assert files + [] == files;
      }
      i := i + 1;
    }
  }

  // ---- What survives ----

  /** One trimmed line without the separator. */
  ghost predicate CleanText(s: string) {
    Trimmed(s) && NoBreak(s) && NoSep(s)
  }

  ghost predicate CleanFile(f: string) {
    CleanText(f) && f != [] && f != FILE_SEP
  }

  ghost predicate Clean(c: CommitRecord) {
    && CleanText(c.sha) && NoBar(c.sha)
    && CleanText(c.author) && NoBar(c.author)
    && CleanText(c.committedAt) && NoBar(c.committedAt)
    && CleanText(c.message)
    && forall i :: 0 <= i < |c.filesChanged| ==> CleanFile(c.filesChanged[i])
  }

  lemma StripClean(s: string)
    requires NoSep(s) && NoBreak(s)
    ensures CleanText(Strip(s))
    ensures NoBar(s) ==> NoBar(Strip(s))
  {
    var i, j := StripIsPart(s);
    NoSepPart(s, i, j);
    assert forall k :: 0 <= k < j - i ==> s[i..j][k] == s[i + k];
  }

  lemma {:induction false} FilesClean(lines: seq<string>, inFiles: bool)
    requires forall p :: p in lines ==> NoBreak(p) && NoSep(p)
    ensures forall f :: f in FilesOf(lines, inFiles) ==> CleanFile(f)
  {
    if lines == [] {
    } else {
      assert lines[0] in lines && forall p :: p in lines[1..] ==> p in lines;
      StripClean(lines[0]);
      FilesClean(lines[1..], inFiles);
      FilesClean(lines[1..], true);
    }
  }

  /** Whatever the parser makes of a block is clean. */
  lemma BlockClean(block: string)
    requires NoSep(block) && ParseBlock(block).Some?
    ensures Clean(ParseBlock(block).value)
  {
    var text := Strip(block);
    var i, j := StripIsPart(block);
    NoSepPart(block, i, j);
    SomeLines(text, []);
    assert [] + text == text;
    LinesClean(text, []);
    var lines := SplitLines(text, []);
    assert lines[0] in lines && forall p :: p in lines[1..] ==> p in lines;
    var header := Strip(lines[0]);
    StripClean(lines[0]);
    assert [] + header == header;
    FieldsClean(header, 3, []);
    var parts := SplitBar(header, 3, []);
    assert forall k :: 0 <= k < |parts| ==> parts[k] in parts;
    StripClean(parts[0]);
    StripClean(parts[1]);
    StripClean(parts[2]);
    StripClean(parts[3]);
    FilesClean(lines[1..], false);
    var files := FilesOf(lines[1..], false);
    assert forall k :: 0 <= k < |files| ==> files[k] in files;
  }

  lemma {:induction false} BlocksClean(blocks: seq<string>)
    requires forall b :: b in blocks ==> NoSep(b)
    ensures forall c :: c in Collect(blocks, Commits()) ==> Clean(c)
  {
    if blocks == [] {
    } else {
      assert blocks[0] in blocks && forall b :: b in blocks[1..] ==> b in blocks;
      BlocksClean(blocks[1..]);
      if ParseBlock(blocks[0]).Some? {
        BlockClean(blocks[0]);
      }
    }
  }

  /** For any text at all: every parsed commit is clean. */
  lemma ParsedIsClean(raw: string)
    ensures forall c :: c in Parse(raw) ==> Clean(c)
  {
    PiecesHaveNoSep(Strip(raw), []);
    BlocksClean(SplitSep(Strip(raw), []));
  }

  // ---- The round trip ----

  /** The name list without its last newline. */
  function Joined(files: seq<string>): string
    requires files != []
  {
    if |files| == 1 then files[0] else files[0] + "\n" + Joined(files[1..])
  }

  /** A block without the white space around it. */
  function Core(c: CommitRecord): string {
    Header(c) + ("\n" + (FILE_SEP + (if c.filesChanged == [] then "" else "\n" + ("" + "\n" + Joined(c.filesChanged)))))
  }

  ghost predicate CleanFiles(files: seq<string>) {
    forall i :: 0 <= i < |files| ==> CleanFile(files[i])
  }

  ghost predicate AllClean(commits: seq<CommitRecord>) {
    forall i :: 0 <= i < |commits| ==> Clean(commits[i])
  }

  lemma {:induction false} NamesAreJoined(files: seq<string>)
    requires files != [] && CleanFiles(files)
    ensures Names(files) == Joined(files) + "\n"
    ensures NoSep(Joined(files)) && Joined(files) != [] && !IsSpace(Joined(files)[|Joined(files)| - 1])
  {
    assert CleanFile(files[0]);
    if |files| == 1 {
      assert files[1..] == [];
    } else {
      NamesAreJoined(files[1..]);
      NoSepJoined(files[0], '\n', Joined(files[1..]));
      assert files[0] + "\n" + (Joined(files[1..]) + "\n") == files[0] + "\n" + Joined(files[1..]) + "\n";
    }
  }

  lemma {:induction false} JoinedLines(files: seq<string>)
    requires files != [] && CleanFiles(files)
    ensures SplitLines(Joined(files), []) == files
  {
    assert CleanFile(files[0]);
    Unit(files[0]);
    if |files| == 1 {
      LastLine(files[0], []);
    } else {
      JoinedLines(files[1..]);
      FirstLine(files[0], Joined(files[1..]), []);
    }
  }

  lemma {:induction false} NamesAreFiles(files: seq<string>)
    requires CleanFiles(files)
    ensures FilesOf(files, true) == files
  {
    if files != [] {
      assert CleanFile(files[0]);
      StripTrimmed(files[0]);
      NamesAreFiles(files[1..]);
    }
  }

  lemma HeaderClean(c: CommitRecord)
    requires Clean(c)
    ensures CleanText(Header(c)) && Header(c) != []
  {
    var d, e := c.committedAt + "|" + c.message, c.author + "|" + (c.committedAt + "|" + c.message);
    NoSepJoined(c.committedAt, '|', c.message);
    NoSepJoined(c.author, '|', d);
    NoSepJoined(c.sha, '|', e);
    assert Header(c) == c.sha + "|" + e;
  }

  lemma Unit(s: string)
    ensures [] + s == s && s + "" == s
  {
  }

  /** The pieces of a header or a log, in the order they are cut off. */
  lemma Nest(a: string, x: string, b: string, y: string, rest: string)
    ensures a + x + b + y + rest == a + x + (b + y + rest)
  {
  }

  lemma HeaderFields(c: CommitRecord)
    requires Clean(c)
    ensures SplitBar(Header(c), 3, []) == [c.sha, c.author, c.committedAt, c.message]
  {
    hide CleanText, SplitBar;
    var d := c.committedAt + "|" + c.message;
    var e := c.author + "|" + d;
    Nest(c.sha, "|", c.author, "|", d);
    Nest(c.sha + "|" + c.author, "|", c.committedAt, "|", c.message);
    FirstField(c.sha, e, 3, []);
    FirstField(c.author, d, 2, []);
    FirstField(c.committedAt, c.message, 1, []);
    OneField(c.message);
    Unit(c.sha);
    Unit(c.author);
    Unit(c.committedAt);
  }

  lemma OneField(s: string)
    ensures SplitBar(s, 0, []) == [s]
  {
    Unit(s);
  }

  lemma ShortNoSep()
    ensures NoSep(FILE_SEP) && NoSep("")
  {
  }

  lemma FilesOfClean(c: CommitRecord)
    requires Clean(c)
    ensures CleanFiles(c.filesChanged)
  {
  }

  lemma CoreClean(c: CommitRecord)
    requires Clean(c)
    ensures Trimmed(Core(c)) && Core(c) != [] && NoSep(Core(c))
    ensures Block(c) == "\n" + Core(c) + "\n"
  {
    hide Header, Clean, SepAt;
    HeaderClean(c);
    ShortNoSep();
    var h, files := Header(c), c.filesChanged;
    if files == [] {
      NoSepJoined(h, '\n', FILE_SEP);
      assert Core(c) == h + "\n" + FILE_SEP;
    } else {
      FilesOfClean(c);
      NamesAreJoined(files);
      NoSepJoined("", '\n', Joined(files));
      NoSepJoined(FILE_SEP, '\n', "" + "\n" + Joined(files));
      NoSepJoined(h, '\n', FILE_SEP + "\n" + ("" + "\n" + Joined(files)));
      assert Core(c) == h + "\n" + (FILE_SEP + "\n" + ("" + "\n" + Joined(files)));
      assert Core(c)[|Core(c)| - 1] == Joined(files)[|Joined(files)| - 1];
      assert Block(c) == "\n" + Core(c) + "\n";
    }
  }

  lemma CoreLines(c: CommitRecord)
    requires Clean(c)
    ensures SplitLines(Core(c), [])
      == [Header(c), FILE_SEP] + (if c.filesChanged == [] then [] else [""] + c.filesChanged)
  {
    hide Header, Clean, SplitLines;
    HeaderClean(c);
    var h, files := Header(c), c.filesChanged;
    Unit(h);
    Unit(FILE_SEP);
    Unit("");
    if files == [] {
      assert Core(c) == h + "\n" + FILE_SEP;
      FirstLine(h, FILE_SEP, []);
      LastLine(FILE_SEP, []);
    } else {
      var names := "" + "\n" + Joined(files);
      assert Core(c) == h + "\n" + (FILE_SEP + "\n" + names);
      FirstLine(h, FILE_SEP + "\n" + names, []);
      FirstLine(FILE_SEP, names, []);
      FirstLine("", Joined(files), []);
      FilesOfClean(c);
      JoinedLines(files);
    }
  }

  lemma CoreFiles(c: CommitRecord)
    requires Clean(c)
    ensures FilesOf([FILE_SEP] + (if c.filesChanged == [] then [] else [""] + c.filesChanged), false) == c.filesChanged
  {
    var files := c.filesChanged;
    StripTrimmed(FILE_SEP);
    assert CleanFiles(files);
    NamesAreFiles(files);
    if files == [] {
      assert [FILE_SEP][1..] == [];
    } else {
      assert ([FILE_SEP] + ([""] + files))[1..] == [""] + files && ([""] + files)[1..] == files;
      StripTrimmed("");
    }
  }

  /** A printed block, with or without its last newline, is read back as its commit. */
  lemma BlockParses(c: CommitRecord, end: string)
    requires Clean(c) && (end == "\n" || end == "")
    ensures ParseBlock("\n" + Core(c) + end) == Some(c)
  {
    hide Header, Core, Strip, SplitLines, SplitBar, FilesOf;
    CoreClean(c);
    StripAround("\n", Core(c), end);
    CoreLines(c);
    HeaderClean(c);
    StripTrimmed(Header(c));
    HeaderFields(c);
    CoreFiles(c);
    assert SplitLines(Core(c), [])[1..] == [FILE_SEP] + (if c.filesChanged == [] then [] else [""] + c.filesChanged);
    StripTrimmed(c.sha);
    StripTrimmed(c.author);
    StripTrimmed(c.committedAt);
    StripTrimmed(c.message);
  }

  /** The printed log after its first separator and without its last newline. */
  function Trail(commits: seq<CommitRecord>): string
    requires commits != []
  {
    if |commits| == 1 then "\n" + Core(commits[0]) + ""
    else "\n" + Core(commits[0]) + "\n" + SEP + Trail(commits[1..])
  }

  lemma PieceOf(core: string, trail: string)
    ensures SEP + ("\n" + core + "\n") + (SEP + trail + "\n") == SEP + ("\n" + core + "\n" + SEP + trail) + "\n"
    ensures SEP + ("\n" + core + "\n") + "" == SEP + ("\n" + core + "") + "\n"
  {
  }

  lemma {:induction false} PrintIsTrail(commits: seq<CommitRecord>)
    requires commits != [] && AllClean(commits)
    ensures Print(commits) == SEP + Trail(commits) + "\n"
    ensures Trail(commits) != [] && !IsSpace(Trail(commits)[|Trail(commits)| - 1])
  {
    hide Core, Block;
    var c := commits[0];
    CoreClean(c);
    if |commits| == 1 {
      assert Print(commits[1..]) == "";
      PieceOf(Core(c), "");
    } else {
      var rest := commits[1..];
      forall i | 0 <= i < |rest| ensures Clean(rest[i]) {
        assert rest[i] == commits[i + 1];
      }
      PrintIsTrail(rest);
      PieceOf(Core(c), Trail(rest));
    }
  }

  lemma {:induction false} TrailParses(commits: seq<CommitRecord>)
    requires commits != [] && AllClean(commits)
    ensures Collect(SplitSep(Trail(commits), []), Commits()) == commits
  {
    hide Core, Clean, SplitSep, Collect, ParseBlock, SepAt;
    var c := commits[0];
    assert Clean(c);
    CoreClean(c);
    ShortNoSep();
    NoSepJoined("", '\n', Core(c));
    assert "" + "\n" + Core(c) == "\n" + Core(c) + "";
    Unit("\n" + Core(c));
    Unit("\n" + Core(c) + "");
    Unit("\n" + Core(c) + "\n");
    if |commits| == 1 {
      OnePiece("\n" + Core(c) + "", []);
      BlockParses(c, "");
      CollectSingle("\n" + Core(c) + "", Commits());
    } else {
      NoSepJoined("\n" + Core(c), '\n', "");
      assert "\n" + Core(c) + "\n" + "" == "\n" + Core(c) + "\n";
      FirstPiece("\n" + Core(c) + "\n", Trail(commits[1..]), []);
      BlockParses(c, "\n");
      forall i | 0 <= i < |commits[1..]| ensures Clean(commits[1..][i]) {
        assert commits[1..][i] == commits[i + 1];
      }
      TrailParses(commits[1..]);
      CollectSingle("\n" + Core(c) + "\n", Commits());
      CollectAppend(["\n" + Core(c) + "\n"], SplitSep(Trail(commits[1..]), []), Commits());
    }
  }

  lemma NoBlock()
    ensures Collect([""], Commits()) == []
  {
  }

  lemma CleanRoundTrip(commits: seq<CommitRecord>)
    requires AllClean(commits)
    ensures Parse(Print(commits)) == commits
  {
    hide Trail, SplitSep, ParseBlock, Core, Clean, Collect, Strip;
    NoBlock();
    ShortNoSep();
    Unit("");
    if commits == [] {
      StripTrimmed("");
      OnePiece("", []);
    } else {
      var trail := Trail(commits);
      PrintIsTrail(commits);
      StripAround("", SEP + trail, "\n");
      assert "" + (SEP + trail) + "\n" == Print(commits);
      FirstPiece("", trail, []);
      assert "" + SEP + trail == SEP + trail;
      TrailParses(commits);
      CollectAppend([""], SplitSep(trail, []), Commits());
      assert [] + commits == commits;
    }
  }

  /** Printing and parsing is the identity on exactly the logs whose every field is clean. */
  lemma RoundTripIff(commits: seq<CommitRecord>)
    ensures Parse(Print(commits)) == commits <==> AllClean(commits)
  {
    if AllClean(commits) {
      CleanRoundTrip(commits);
    } else {
      ParsedIsClean(Print(commits));
    }
  }

  // ---- The format written out ----

  /** A commit is printed as a line of three signs, its sha, author, date and subject between bars, a line of three
      dashes, and its files after an empty line; and that text is read as the commit. */
  lemma FieldsRead(c: CommitRecord)
    requires Clean(c)
    ensures
      var header := c.sha + "|" + c.author + "|" + c.committedAt + "|" + c.message;
      var files := if c.filesChanged == [] then "" else "\n" + Names(c.filesChanged);
      Parse("===\n" + header + "\n---\n" + files) == [c]
  {
    hide Parse, Names, Clean;
    var header := c.sha + "|" + c.author + "|" + c.committedAt + "|" + c.message;
    var files := if c.filesChanged == [] then "" else "\n" + Names(c.filesChanged);
    RoundTripIff([c]);
    assert [c][1..] == [];
    PrintedAs(header, files);
    assert Print([c]) == SEP + Block(c) + "" == "===\n" + header + "\n---\n" + files;
  }

  lemma PrintedAs(header: string, files: string)
    ensures SEP + ("\n" + header + "\n" + FILE_SEP + "\n" + files) + "" == "===\n" + header + "\n---\n" + files
  {
  }

  /** The file a line stands for. */
  function FileLine(): string -> seq<string> {
    line => if Strip(line) == "" || Strip(line) == "---" then [] else [Strip(line)]
  }

  lemma {:induction false} MarkedFiles(lines: seq<string>)
    ensures FilesOf(lines, true) == Collect(lines, FileLine())
  {
    if lines != [] {
      MarkedFiles(lines[1..]);
    }
  }

  /** The files are what follows the first line of dashes, empty lines and further such lines aside; without one there
      are none. */
  lemma {:induction false} FilesAfterMarker(before: seq<string>, marker: string, after: seq<string>)
    requires Strip(marker) == "---" && forall i :: 0 <= i < |before| ==> Strip(before[i]) != "---"
    ensures FilesOf(before, false) == []
    ensures FilesOf(before + [marker] + after, false) == Collect(after, FileLine())
  {
    hide Strip;
    if before == [] {
      assert (before + [marker] + after)[0] == marker && (before + [marker] + after)[1..] == after;
      MarkedFiles(after);
    } else {
      var all := before + [marker] + after;
      assert all[0] == before[0] && all[1..] == before[1..] + [marker] + after;
      FilesAfterMarker(before[1..], marker, after);
    }
  }

  lemma {:induction false} BarParts(s: string, n: nat, acc: string)
    ensures |SplitBar(s, n, acc)| == (if multiset(s)['|'] < n then multiset(s)['|'] else n) + 1
  {
    if n > 0 && s != [] {
      assert s == [s[0]] + s[1..];
      if s[0] == '|' {
        BarParts(s[1..], n - 1, []);
      } else {
        BarParts(s[1..], n, acc + [s[0]]);
      }
    }
  }

  function TopLine(block: string): string {
    var lines := SplitLines(Strip(block), []);
    if lines == [] then "" else Strip(lines[0])
  }

  /** A block is a commit exactly when its first line has three bars or more; others are passed over. */
  lemma BlockReadIff(block: string)
    ensures ParseBlock(block) != None <==> multiset(TopLine(block))['|'] >= 3
  {
    var text := Strip(block);
    if text != [] {
      SomeLines(text, []);
      BarParts(Strip(SplitLines(text, [])[0]), 3, []);
    }
  }

  /** Parsing normalises any text: printing what was parsed and parsing it again changes nothing. */
  lemma ParseNormalises(raw: string)
    ensures Parse(Print(Parse(raw))) == Parse(raw)
  {
    ParsedIsClean(raw);
    CleanRoundTrip(Parse(raw));
  }
}
