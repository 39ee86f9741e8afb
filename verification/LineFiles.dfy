/** The line-file layer under both persistent stores: file_utils.c and the rename/copy/size calls. */
module LineFiles {
  import opened Common

  /** The file every rewrite goes through (`SYSTEM_WIDE_TEMP_FILE`). */
  const TEMP_FILE: string := "temp"

  /** Capacity of the `tempBuffer` arrays lines are read into; one place is kept for the NUL. */
  const LINE_BUFFER: nat := 1024

  /** The text of a file holding the given lines. */
  function Join(ls: seq<string>): string {
    if ls == [] then "" else ls[0] + "\n" + Join(ls[1..])
  }

  /** Lines that can be read: not empty, and without trailing CRs. */
  predicate Visible(l: string) {
    l != "" && '\n' !in l && l[|l| - 1] != '\r'
  }

  predicate AllVisible(ls: seq<string>) {
    forall l :: l in ls ==> Visible(l)
  }

  /** Lines that survive being written and read back. */
  predicate Clean(l: string) {
    Visible(l) && |l| < LINE_BUFFER
  }

  predicate AllClean(ls: seq<string>) {
    forall l :: l in ls ==> Clean(l)
  }

  /** First line of `s` without its newline, and what follows the newline. */
  function Cut(s: string): (r: (string, string))
    ensures s != "" ==> |r.1| < |s|
  {
    if s == "" then ("", "")
    else if s[0] == '\n' then ("", s[1..])
    else var (line, rest) := Cut(s[1..]); ([s[0]] + line, rest)
  }

  lemma {:induction false} CutParts(s: string)
    ensures var (line, rest) := Cut(s);
            && '\n' !in line
            && (if '\n' in s then s == line + "\n" + rest else s == line && rest == "")
  {
    if s != "" && s[0] != '\n' {
      CutParts(s[1..]);
      var (line, rest) := Cut(s[1..]);
      assert s == [s[0]] + s[1..];
      assert [s[0]] + (line + "\n" + rest) == [s[0]] + line + "\n" + rest;
    } else if s != "" {
      assert s == "" + "\n" + s[1..];
    }
  }

  function StripCR(l: string): string {
    if l != "" && l[|l| - 1] == '\r' then StripCR(l[..|l| - 1]) else l
  }

  lemma {:induction false} CutLine(l: string, rest: string)
    requires '\n' !in l
    ensures Cut(l + "\n" + rest) == (l, rest)
  {
    var s := l + "\n" + rest;
    if l == "" {
      assert s[1..] == rest;
    } else {
      assert s[0] == l[0] && s[1..] == l[1..] + "\n" + rest;
      CutLine(l[1..], rest);
      assert [l[0]] + l[1..] == l;
    }
  }

  /** Reading a joined file from the front gives back its first line. */
  lemma CutJoin(ls: seq<string>)
    requires AllClean(ls)
    ensures var (line, rest) := Cut(Join(ls));
            if ls == [] then line == rest == "" else line == StripCR(line) == ls[0] && rest == Join(ls[1..])
  {
    if ls != [] {
      assert Clean(ls[0]);
      CutLine(ls[0], Join(ls[1..]));
    }
  }

  /** The lines that a reading loop gets from a text. It takes the first empty line for the end of the file. */
  function Lines(text: string): seq<string>
    decreases |text|
  {
    var line := StripCR(Cut(text).0);
    if line == "" then [] else [line] + Lines(Cut(text).1)
  }

  /** The lines read fit a buffer of this capacity, CRs and the final NUL included. */
  predicate LinesFit(text: string, capacity: nat)
    decreases |text|
  {
    |Cut(text).0| < capacity && (StripCR(Cut(text).0) != "" ==> LinesFit(Cut(text).1, capacity))
  }

  lemma {:induction false} StripVisible(l: string)
    ensures StripCR(l) <= l && (StripCR(l) != "" && '\n' !in l ==> Visible(StripCR(l)))
    ensures Visible(l) ==> StripCR(l) == l
    decreases |l|
  {
    if l != "" && l[|l| - 1] == '\r' {
      StripVisible(l[..|l| - 1]);
    }
  }

  lemma {:induction false} LinesVisible(text: string)
    ensures AllVisible(Lines(text))
    decreases |text|
  {
    CutParts(text);
    StripVisible(Cut(text).0);
    if StripCR(Cut(text).0) != "" {
      LinesVisible(Cut(text).1);
    }
  }

  lemma LinesStep(l: string, rest: string)
    requires Visible(l)
    ensures Lines(l + "\n" + rest) == [l] + Lines(rest)
  {
    CutLine(l, rest);
    StripVisible(l);
  }

  /** Visible lines that were joined are read back, and then what follows them. */
  lemma {:induction false} LinesJoin(ls: seq<string>, rest: string)
    requires AllVisible(ls)
    ensures Lines(Join(ls) + rest) == ls + Lines(rest)
    decreases |ls|
  {
    if ls == [] {
      assert Join(ls) + rest == rest;
    } else {
      assert Join(ls) + rest == ls[0] + "\n" + (Join(ls[1..]) + rest);
      assert Visible(ls[0]);
      LinesStep(ls[0], Join(ls[1..]) + rest);
      LinesJoin(ls[1..], rest);
      assert [ls[0]] + (ls[1..] + Lines(rest)) == ls + Lines(rest);
    }
  }

  lemma {:induction false} FitJoin(ls: seq<string>, rest: string, capacity: nat)
    requires AllVisible(ls) && (forall l :: l in ls ==> |l| < capacity) && LinesFit(rest, capacity)
    ensures LinesFit(Join(ls) + rest, capacity)
    decreases |ls|
  {
    if ls == [] {
      assert Join(ls) + rest == rest;
    } else {
      assert Join(ls) + rest == ls[0] + "\n" + (Join(ls[1..]) + rest);
      assert Visible(ls[0]);
      CutLine(ls[0], Join(ls[1..]) + rest);
      FitJoin(ls[1..], rest, capacity);
    }
  }

  lemma {:induction false} FitLines(text: string, capacity: nat)
    requires LinesFit(text, capacity)
    ensures forall l :: l in Lines(text) ==> |l| < capacity
    decreases |text|
  {
    StripVisible(Cut(text).0);
    if StripCR(Cut(text).0) != "" {
      FitLines(Cut(text).1, capacity);
    }
  }

  lemma {:induction false} ShortTextFits(text: string, capacity: nat)
    requires |text| < capacity
    ensures LinesFit(text, capacity) && LinesFit(text + "\n", capacity)
    decreases |text|
  {
    CutParts(text);
    if '\n' in text {
      var (line, rest) := Cut(text);
      CutLine(line, rest + "\n");
      assert text + "\n" == line + "\n" + (rest + "\n");
      ShortTextFits(rest, capacity);
    } else {
      CutLine(text, "");
      assert text + "\n" + "" == text + "\n";
    }
  }

  lemma {:induction false} JoinConcat(a: seq<string>, b: seq<string>)
    ensures Join(a + b) == Join(a) + Join(b)
  {
    if a == [] {
      assert a + b == b;
    } else {
      assert (a + b)[1..] == a[1..] + b;
      JoinConcat(a[1..], b);
    }
  }

  lemma JoinAppend(a: seq<string>, l: string)
    ensures Join(a + [l]) == Join(a) + l + "\n"
  {
    JoinConcat(a, [l]);
    assert Join([l]) == l + "\n" + Join([]);
  }

  /** A `FILE *` opened for reading: the characters not consumed yet. */
  class InputFile {
    var unread: string

    constructor (content: string)
      ensures unread == content
    {
      unread := content;
    }

    /** FILE_GETC: None is the end-of-file mark. */
    method Getc() returns (ch: Option<char>)
      modifies this
      ensures old(unread) == "" ==> ch == None && unread == ""
      ensures old(unread) != "" ==> ch == Some(old(unread)[0]) && unread == old(unread)[1..]
    {
      if unread == "" {
        return None;
      }
      ch := Some(unread[0]);
      unread := unread[1..];
    }

    /** sg_readLine, into a buffer that has room for the line. */
    method ReadLine(maxBufferLength: nat) returns (buffer: string)
      requires |Cut(unread).0| < maxBufferLength
      modifies this
      ensures buffer == StripCR(Cut(old(unread)).0) && unread == Cut(old(unread)).1
    {
      buffer := "";
      ghost var all := unread;
      assert "" + Cut(all).0 == Cut(all).0;
      while true
        invariant Cut(all) == (buffer + Cut(unread).0, Cut(unread).1)
        decreases |unread|
      {
        ghost var before := unread;
        var ch := Getc();
        if ch == None || ch == Some('\n') {
          assert buffer + "" == buffer;
          break;
        }
        assert buffer + Cut(before).0 == (buffer + [ch.value]) + Cut(unread).0;
        buffer := buffer + [ch.value];
      }
      ghost var line := buffer;
      while |buffer| > 0 && buffer[|buffer| - 1] == '\r'
        invariant StripCR(buffer) == StripCR(line)
      {
        buffer := buffer[..|buffer| - 1];
      }
    }
  }

  /** The directory the device keeps its files in. */
  class Disk {
    var files: map<string, string>

    constructor ()
      ensures files == map[]
    {
      files := map[];
    }

    /** sg_appendLine: mode "a+" creates the file when it is missing. */
    method AppendLine(path: string, line: string) returns (rc: Status)
      modifies this
      ensures rc == SUCCESS
      ensures files == old(files)[path := (if path in old(files) then old(files)[path] else "") + line + "\n"]
    {
      var content := if path in files then files[path] else "";
      ghost var before := content;
      var i := 0;
      while i < |line|
        invariant 0 <= i <= |line|
        invariant content == before + line[..i]
      {
        content := content + [line[i]];
        i := i + 1;
      }
      assert line[..i] == line;
      files := files[path := content + ['\n']];
      rc := SUCCESS;
    }

    /** sg_createEmptyFile: mode "w" truncates. */
    method CreateEmptyFile(path: string) returns (rc: Status)
      modifies this
      ensures rc == SUCCESS && files == old(files)[path := ""]
    {
      files := files[path := ""];
      rc := SUCCESS;
    }

    method RenameFile(oldPath: string, newPath: string) returns (rc: Status)
      requires oldPath != newPath
      modifies this
      ensures oldPath !in old(files) ==> rc == FAILURE && files == old(files)
      ensures oldPath in old(files) ==> rc == SUCCESS && files == old(files)[newPath := old(files)[oldPath]] - {oldPath}
    {
      if oldPath !in files {
        return FAILURE;
      }
      files := files[newPath := files[oldPath]] - {oldPath};
      rc := SUCCESS;
    }

    /** copyFile assumes that the source exists. */
    method CopyFile(oldPath: string, newPath: string)
      requires oldPath in files && oldPath != newPath
      modifies this
      ensures files == old(files)[newPath := old(files)[oldPath]]
    {
      var fpr := new InputFile(files[oldPath]);
      var copy := "";
      ghost var all := fpr.unread;
      while true
        invariant copy + fpr.unread == all
        invariant files == old(files)
        decreases |fpr.unread|
      {
        var ch := fpr.Getc();
        if ch == None {
          break;
        }
        copy := copy + [ch.value];
      }
      assert copy == all;
      files := files[newPath := copy];
    }
  }
}
