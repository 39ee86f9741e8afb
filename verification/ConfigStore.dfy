/** The config store of device_config.c: the lines of config.txt, read as a map from the key of the JSON record on a line.
    Records are written as they come, so that one with a line end in it becomes several lines. */
module ConfigStore {
  import opened Common
  import opened Json
  import opened LineFiles

  const CONFIG_FILE: string := "config.txt"
  const CONFIG_KEY_KEY: string := "key"

  function KeyOf(line: string): string {
    Lookup(line, CONFIG_KEY_KEY)
  }

  // ---- What the operations do to the lines ----

  /** The lines of other keys, in order. */
  function Without(lines: seq<string>, key: string): seq<string> {
    if lines == [] then []
    else (if KeyOf(lines[0]) == key then [] else [lines[0]]) + Without(lines[1..], key)
  }

  /** The last line with the key. */
  function Find(lines: seq<string>, key: string): Option<string> {
    if lines == [] then None
    else
      var later := Find(lines[1..], key);
      if later.Some? then later else if KeyOf(lines[0]) == key then Some(lines[0]) else None
  }

  /** The file after a record was saved: the other lines, and the text of the record whatever is in it. */
  function Saved(text: string, key: string, value: string): string {
    Join(Without(Lines(text), key)) + (value + "\n")
  }

  /** Without a line to keep there is no temp file to rename, and the config file stays as it is. */
  function Deleted(text: string, key: string): string {
    if Without(Lines(text), key) == [] then text else Join(Without(Lines(text), key))
  }

  /** A line copied over what the caller's buffer held. */
  function Overlay(buffer: string, line: string): string {
    if |buffer| <= |line| then line else line + buffer[|line|..]
  }

  function Overlaid(buffer: string, lines: seq<string>, key: string): string
    decreases |lines|
  {
    if lines == [] then buffer
    else Overlaid(if KeyOf(lines[0]) == key then Overlay(buffer, lines[0]) else buffer, lines[1..], key)
  }

  /** What a zeroed buffer holds after reading: every line with the key, copied over the ones before it. */
  function Got(lines: seq<string>, key: string): Option<string> {
    if Find(lines, key).Some? then Some(Overlaid("", lines, key)) else None
  }

  lemma {:induction false} WithoutVisible(lines: seq<string>, key: string)
    requires AllVisible(lines)
    ensures AllVisible(Without(lines, key)) && forall l :: l in Without(lines, key) ==> l in lines
  {
    if lines != [] {
      WithoutVisible(lines[1..], key);
      assert lines[0] in lines;
      assert forall l :: l in lines[1..] ==> l in lines;
    }
  }

  /** The lines that are there after a save. */
  lemma LinesSaved(text: string, key: string, value: string)
    ensures Lines(Saved(text, key, value)) == Without(Lines(text), key) + Lines(value + "\n")
  {
    LinesVisible(text);
    WithoutVisible(Lines(text), key);
    LinesJoin(Without(Lines(text), key), value + "\n");
  }

  lemma LinesDeleted(text: string, key: string)
    ensures Lines(Deleted(text, key)) == if Without(Lines(text), key) == [] then Lines(text) else Without(Lines(text), key)
  {
    var others := Without(Lines(text), key);
    LinesVisible(text);
    WithoutVisible(Lines(text), key);
    LinesJoin(others, "");
    assert Join(others) + "" == Join(others) && others + [] == others;
  }

  /** A visible record is one line. */
  lemma OneLine(value: string)
    requires Visible(value)
    ensures Lines(value + "\n") == [value]
  {
    LinesStep(value, "");
    assert value + "\n" + "" == value + "\n";
  }

  // ---- The lines as a map ----

  predicate UniqueKeys(lines: seq<string>) {
    lines != [] ==> Find(lines[1..], KeyOf(lines[0])).None? && UniqueKeys(lines[1..])
  }

  function AsMap(lines: seq<string>): map<string, string> {
    if lines == [] then map[]
    else
      var later := AsMap(lines[1..]);
      if KeyOf(lines[0]) in later then later else later[KeyOf(lines[0]) := lines[0]]
  }

  lemma {:induction false} FindIsMap(lines: seq<string>, key: string)
    ensures Find(lines, key) == if key in AsMap(lines) then Some(AsMap(lines)[key]) else None
  {
    if lines != [] {
      FindIsMap(lines[1..], key);
    }
  }

  lemma {:induction false} FindConcat(a: seq<string>, b: seq<string>, key: string)
    ensures Find(a + b, key) == if Find(b, key).Some? then Find(b, key) else Find(a, key)
  {
    if a == [] {
      assert a + b == b;
    } else {
      assert (a + b)[1..] == a[1..] + b;
      FindConcat(a[1..], b, key);
    }
  }

  lemma {:induction false} FindWithout(lines: seq<string>, key: string, other: string)
    ensures Find(Without(lines, key), other) == if other == key then None else Find(lines, other)
  {
    if lines != [] {
      FindWithout(lines[1..], key, other);
      if KeyOf(lines[0]) == key {
        assert Without(lines, key) == Without(lines[1..], key);
      } else {
        assert Without(lines, key)[1..] == Without(lines[1..], key);
      }
    }
  }

  lemma {:induction false} WithoutUnique(lines: seq<string>, key: string)
    requires UniqueKeys(lines)
    ensures UniqueKeys(Without(lines, key))
  {
    if lines != [] {
      WithoutUnique(lines[1..], key);
      FindWithout(lines[1..], key, KeyOf(lines[0]));
      if KeyOf(lines[0]) == key {
        assert Without(lines, key) == Without(lines[1..], key);
      } else {
        assert Without(lines, key)[1..] == Without(lines[1..], key);
      }
    }
  }

  lemma {:induction false} AppendUnique(lines: seq<string>, value: string)
    requires UniqueKeys(lines) && Find(lines, KeyOf(value)).None?
    ensures UniqueKeys(lines + [value])
  {
    if lines == [] {
      assert lines + [value] == [value];
    } else {
      assert (lines + [value])[1..] == lines[1..] + [value];
      FindConcat(lines[1..], [value], KeyOf(lines[0]));
      AppendUnique(lines[1..], value);
    }
  }

  lemma SameMap(lines: seq<string>, m: map<string, string>)
    requires forall k: string :: Find(lines, k) == if k in m then Some(m[k]) else None
    ensures AsMap(lines) == m
  {
    forall k: string
      ensures k in AsMap(lines) <==> k in m
      ensures k in m ==> AsMap(lines)[k] == m[k]
    {
      FindIsMap(lines, k);
    }
  }

  lemma MapWithout(lines: seq<string>, key: string)
    ensures AsMap(Without(lines, key)) == AsMap(lines) - {key}
  {
    forall k: string
      ensures Find(Without(lines, key), k) == if k in AsMap(lines) - {key} then Some((AsMap(lines) - {key})[k]) else None
    {
      FindWithout(lines, key, k);
      FindIsMap(lines, k);
    }
    SameMap(Without(lines, key), AsMap(lines) - {key});
  }

  lemma MapConcat(a: seq<string>, b: seq<string>)
    ensures AsMap(a + b) == AsMap(a) + AsMap(b)
  {
    forall k: string
      ensures Find(a + b, k) == if k in AsMap(a) + AsMap(b) then Some((AsMap(a) + AsMap(b))[k]) else None
    {
      FindConcat(a, b, k);
      FindIsMap(a, k);
      FindIsMap(b, k);
    }
    SameMap(a + b, AsMap(a) + AsMap(b));
  }

  /** Saving replaces the entry of the key by the entries of all lines of the text; for a record of one line that is map
      update. */
  lemma SaveIsUpdate(text: string, key: string, value: string)
    ensures var now := AsMap(Lines(Saved(text, key, value)));
            && now == (AsMap(Lines(text)) - {key}) + AsMap(Lines(value + "\n"))
            && (Visible(value) && KeyOf(value) == key ==> now == AsMap(Lines(text))[key := value])
    ensures UniqueKeys(Lines(text)) && Visible(value) && KeyOf(value) == key ==> UniqueKeys(Lines(Saved(text, key, value)))
  {
    var others, added := Without(Lines(text), key), Lines(value + "\n");
    LinesSaved(text, key, value);
    MapConcat(others, added);
    MapWithout(Lines(text), key);
    if Visible(value) && KeyOf(value) == key {
      OneLine(value);
      assert AsMap([value]) == map[key := value];
      if UniqueKeys(Lines(text)) {
        WithoutUnique(Lines(text), key);
        FindWithout(Lines(text), key, key);
        AppendUnique(others, value);
      }
    }
  }

  lemma {:induction false} NothingLeft(lines: seq<string>, key: string)
    ensures Without(lines, key) == [] <==> AsMap(lines).Keys <= {key}
  {
    if lines != [] {
      NothingLeft(lines[1..], key);
      assert KeyOf(lines[0]) in AsMap(lines);
      assert AsMap(lines).Keys == AsMap(lines[1..]).Keys + {KeyOf(lines[0])};
    }
  }

  /** Deleting removes the key exactly when the store has no key at all or another one besides it. */
  lemma DeleteIsRemoval(text: string, key: string)
    ensures var was, now := AsMap(Lines(text)), AsMap(Lines(Deleted(text, key)));
            now == (if was.Keys == {key} then was else was - {key}) && (key !in now <==> was.Keys != {key})
    ensures UniqueKeys(Lines(text)) ==> UniqueKeys(Lines(Deleted(text, key)))
  {
    var lines := Lines(text);
    LinesDeleted(text, key);
    NothingLeft(lines, key);
    if Without(lines, key) == [] {
      assert AsMap(lines).Keys != {key} ==> AsMap(lines).Keys == {};
    } else {
      MapWithout(lines, key);
      if UniqueKeys(lines) {
        WithoutUnique(lines, key);
      }
    }
  }

  /** Reading into an empty buffer gives the line of the key, if lines have unique keys. */
  lemma {:induction false} OverlaidIsFind(buffer: string, lines: seq<string>, key: string)
    requires UniqueKeys(lines)
    ensures Overlaid(buffer, lines, key) == match Find(lines, key) case Some(l) => Overlay(buffer, l) case None => buffer
    decreases |lines|
  {
    if lines != [] {
      OverlaidIsFind(if KeyOf(lines[0]) == key then Overlay(buffer, lines[0]) else buffer, lines[1..], key);
    }
  }

  lemma {:induction false} OverlaidAbsent(buffer: string, lines: seq<string>, key: string)
    requires Find(lines, key).None?
    ensures Overlaid(buffer, lines, key) == buffer
  {
    if lines != [] {
      OverlaidAbsent(buffer, lines[1..], key);
    }
  }

  lemma {:induction false} OverlaidConcat(buffer: string, a: seq<string>, b: seq<string>, key: string)
    ensures Overlaid(buffer, a + b, key) == Overlaid(Overlaid(buffer, a, key), b, key)
    decreases |a|
  {
    if a == [] {
      assert a + b == b;
    } else {
      assert (a + b)[1..] == a[1..] + b;
      OverlaidConcat(if KeyOf(a[0]) == key then Overlay(buffer, a[0]) else buffer, a[1..], b, key);
    }
  }

  lemma {:induction false} OverlaidWithout(buffer: string, lines: seq<string>, key: string, other: string)
    requires other != key
    ensures Overlaid(buffer, Without(lines, key), other) == Overlaid(buffer, lines, other)
    decreases |lines|
  {
    if lines != [] {
      OverlaidWithout(if KeyOf(lines[0]) == other then Overlay(buffer, lines[0]) else buffer, lines[1..], key, other);
      if KeyOf(lines[0]) == key {
        assert Without(lines, key) == Without(lines[1..], key);
      } else {
        assert Without(lines, key)[1..] == Without(lines[1..], key);
      }
    }
  }

  /** What is read after a save: for the key itself its lines in the new text, for another one what was read before,
      unless the new text has lines of that key too. */
  lemma GotSaved(text: string, key: string, value: string, other: string)
    ensures var added := Lines(value + "\n");
            var now := Got(Lines(Saved(text, key, value)), other);
            if other == key then now == Got(added, key)
            else Find(added, other).None? ==> now == Got(Lines(text), other)
  {
    var others, added := Without(Lines(text), key), Lines(value + "\n");
    LinesSaved(text, key, value);
    FindConcat(others, added, other);
    FindWithout(Lines(text), key, other);
    OverlaidConcat("", others, added, other);
    if other == key {
      OverlaidAbsent("", others, key);
    } else {
      OverlaidWithout("", Lines(text), key, other);
      if Find(added, other).None? {
        OverlaidAbsent(Overlaid("", others, other), added, other);
      }
    }
  }

  /** Of two lines with the key the second one is read, and behind it what the first one had there. */
  lemma SecondLineOverFirst(first: string, second: string, key: string)
    requires KeyOf(first) == key && KeyOf(second) == key
    ensures Got([first, second], key) == Some(second + if |first| > |second| then first[|second|..] else "")
  {
    var lines := [first, second];
    assert lines[1..] == [second] && [second][1..] == [];
    assert Find([second], key) == Some(second);
    assert Find(lines[1..], key) == Some(second);
    assert Overlay("", first) == first;
    assert Overlaid("", lines, key) == Overlaid(first, [second], key) == Overlaid(Overlay(first, second), [], key);
    assert second + "" == second;
  }

  lemma {:induction false} OverlaidLength(buffer: string, lines: seq<string>, key: string, capacity: nat)
    requires |buffer| < capacity && forall l :: l in lines ==> |l| < capacity
    ensures |Overlaid(buffer, lines, key)| < capacity
    decreases |lines|
  {
    if lines != [] {
      assert lines[0] in lines;
      OverlaidLength(if KeyOf(lines[0]) == key then Overlay(buffer, lines[0]) else buffer, lines[1..], key, capacity);
    }
  }

  // ---- Runs ----

  datatype Op = Save(value: string) | Delete(key: string)

  function Apply(text: string, op: Op): string {
    match op
    case Save(value) => Saved(text, KeyOf(value), value)
    case Delete(key) => Deleted(text, key)
  }

  function Run(text: string, ops: seq<Op>): string
    decreases |ops|
  {
    if ops == [] then text else Run(Apply(text, ops[0]), ops[1..])
  }

  function ApplyToMap(m: map<string, string>, op: Op): map<string, string> {
    match op
    case Save(value) => (m - {KeyOf(value)}) + AsMap(Lines(value + "\n"))
    case Delete(key) => if m.Keys == {key} then m else m - {key}
  }

  function RunOnMap(m: map<string, string>, ops: seq<Op>): map<string, string>
    decreases |ops|
  {
    if ops == [] then m else RunOnMap(ApplyToMap(m, ops[0]), ops[1..])
  }

  predicate OneLineRecords(ops: seq<Op>) {
    forall op :: op in ops && op.Save? ==> Visible(op.value)
  }

  /** The line file refines a map, whatever is saved and deleted, and has at most one line a key if every record is one
      line. */
  lemma {:induction false} RefinesMap(text: string, ops: seq<Op>)
    ensures AsMap(Lines(Run(text, ops))) == RunOnMap(AsMap(Lines(text)), ops)
    ensures UniqueKeys(Lines(text)) && OneLineRecords(ops) ==> UniqueKeys(Lines(Run(text, ops)))
    decreases |ops|
  {
    if ops != [] {
      assert ops[0] in ops;
      match ops[0] {
        case Save(value) => SaveIsUpdate(text, KeyOf(value), value);
        case Delete(key) => DeleteIsRemoval(text, key);
      }
      RefinesMap(Apply(text, ops[0]), ops[1..]);
    }
  }

  // ---- The file ----

  class ConfigFile {
    const disk: Disk

    /** Lines are read into 1024 bytes, their keys into 1000, and matching lines into the 1000 of the caller. */
    ghost predicate Valid()
      reads disk
    {
      TEMP_FILE !in disk.files && LinesFit(Text(), MAX_BUFFER_SIZE)
    }

    /** A missing file reads as an empty one. */
    ghost function Text(): string
      reads disk
    {
      if CONFIG_FILE in disk.files then disk.files[CONFIG_FILE] else ""
    }

    /** config.txt may hold lines from an earlier run. */
    constructor (disk: Disk)
      ensures this.disk == disk
    {
      this.disk := disk;
    }

    /** The pass over the lines: matches go to the buffer, or when deleting all others go to the temp file. */
    method Scan(key: string, buffer: string, deleteConfig: bool) returns (rc: Status, out: string)
      requires Valid()
      modifies disk
      ensures var lines := Lines(old(Text()));
              && (rc == SUCCESS <==> !deleteConfig && Find(lines, key).Some?)
              && out == (if deleteConfig then buffer else Overlaid(buffer, lines, key))
              && disk.files == if deleteConfig && Without(lines, key) != [] then old(disk.files)[TEMP_FILE := Join(Without(lines, key))]
                               else old(disk.files)
    {
      rc, out := FAILURE, buffer;
      if CONFIG_FILE !in disk.files {
        return;
      }
      var fp := new InputFile(disk.files[CONFIG_FILE]);
      ghost var lines, start := Lines(Text()), disk.files;
      ghost var kept: seq<string> := [];
      PassedStart(lines, key, deleteConfig, buffer);
      while true
        invariant LinesFit(fp.unread, MAX_BUFFER_SIZE)
        invariant Passed(lines, Lines(fp.unread), key, deleteConfig, buffer, rc, out, kept)
        invariant disk.files == if deleteConfig && kept != [] then start[TEMP_FILE := Join(kept)] else start
        decreases |fp.unread|
      {
        ghost var rest := Lines(fp.unread);
        var tempBuffer := fp.ReadLine(LINE_BUFFER);
        if tempBuffer == "" {
          break;
        }
        assert rest == [tempBuffer] + Lines(fp.unread);
        PassedStep(lines, rest, key, deleteConfig, buffer, rc, out, kept);
        rc, out := HandleLine(tempBuffer, key, deleteConfig, rc, out);
        if KeyOf(tempBuffer) != key {
          JoinAppend(kept, tempBuffer);
          kept := kept + [tempBuffer];
        }
      }
      assert kept + [] == kept;
    }

    /** A match goes to the buffer; another line is kept by copying it to the temp file. */
    method HandleLine(line: string, key: string, deleteConfig: bool, rc0: Status, out0: string) returns (rc: Status, out: string)
      modifies disk
      ensures rc == if KeyOf(line) == key && !deleteConfig then SUCCESS else rc0
      ensures out == if KeyOf(line) == key && !deleteConfig then Overlay(out0, line) else out0
      ensures disk.files == if KeyOf(line) == key || !deleteConfig then old(disk.files)
                            else old(disk.files)[TEMP_FILE :=
                              (if TEMP_FILE in old(disk.files) then old(disk.files)[TEMP_FILE] else "") + line + "\n"]
    {
      rc, out := rc0, out0;
      var jsonKey := GetJsonKeyValueIfPresent(line, CONFIG_KEY_KEY, "");
      if jsonKey == key {
        if !deleteConfig {
          out := line + if |line| < |out| then out[|line|..] else "";
          rc := SUCCESS;
        }
      } else if deleteConfig {
        var _ := disk.AppendLine(TEMP_FILE, line);
      }
    }

    /** make_the_switch */
    method MakeTheSwitch()
      modifies disk
      ensures TEMP_FILE !in disk.files
      ensures disk.files == if TEMP_FILE in old(disk.files) then old(disk.files)[CONFIG_FILE := old(disk.files)[TEMP_FILE]] - {TEMP_FILE}
                            else old(disk.files)
    {
      var _ := disk.RenameFile(TEMP_FILE, CONFIG_FILE);
    }

    /** get_config_value_from_persistent_storage into a zeroed buffer of MAX_BUFFER_SIZE bytes. */
    method Get(key: string) returns (rc: Status, buffer: string)
      requires Valid()
      modifies disk
      ensures Valid() && disk.files == old(disk.files)
      ensures rc == SUCCESS <==> Got(Lines(Text()), key).Some?
      ensures buffer == Got(Lines(Text()), key).GetOr("") && |buffer| < MAX_BUFFER_SIZE
      ensures UniqueKeys(Lines(Text())) ==> buffer == Find(Lines(Text()), key).GetOr("")
    {
      ghost var lines := Lines(Text());
      rc, buffer := Scan(key, "", false);
      FitLines(Text(), MAX_BUFFER_SIZE);
      OverlaidLength("", lines, key, MAX_BUFFER_SIZE);
      if Find(lines, key).None? {
        OverlaidAbsent("", lines, key);
      }
      if UniqueKeys(lines) {
        OverlaidIsFind("", lines, key);
      }
    }

    /** save_config_value_on_persistent_storage: the text goes into the file as it is. */
    method Save(key: string, value: string) returns (rc: Status)
      requires Valid() && LinesFit(value + "\n", MAX_BUFFER_SIZE)
      modifies disk
      ensures Valid() && rc == SUCCESS
      ensures disk.files == old(disk.files)[CONFIG_FILE := Saved(old(Text()), key, value)]
    {
      ghost var others := Without(Lines(Text()), key);
      ghost var start, saved := disk.files, Saved(Text(), key, value);
      FitSaved(Text(), key, value);
      OthersAndRecord(others, value);
      var _, _ := Scan(key, "", true);
      rc := disk.AppendLine(TEMP_FILE, value);
      assert disk.files == start[TEMP_FILE := saved];
      MakeTheSwitch();
      assert disk.files == start[CONFIG_FILE := saved];
    }

    /** delete_config_value_from_persistent_storage: FAILURE is returned whether a line was deleted or not. */
    method Delete(key: string) returns (rc: Status)
      requires Valid()
      modifies disk
      ensures Valid() && rc == FAILURE
      ensures disk.files == if Without(Lines(old(Text())), key) == [] then old(disk.files)
                            else old(disk.files)[CONFIG_FILE := Deleted(old(Text()), key)]
    {
      var ignored;
      FitDeleted(Text(), key);
      rc, ignored := Scan(key, "", true);
      MakeTheSwitch();
    }
  }

  lemma OthersAndRecord(others: seq<string>, value: string)
    ensures (if others != [] then Join(others) else "") + value + "\n" == Join(others) + (value + "\n")
  {
  }

  lemma FitSaved(text: string, key: string, value: string)
    requires LinesFit(text, MAX_BUFFER_SIZE) && LinesFit(value + "\n", MAX_BUFFER_SIZE)
    ensures LinesFit(Saved(text, key, value), MAX_BUFFER_SIZE)
  {
    LinesVisible(text);
    WithoutVisible(Lines(text), key);
    FitLines(text, MAX_BUFFER_SIZE);
    FitJoin(Without(Lines(text), key), value + "\n", MAX_BUFFER_SIZE);
  }

  lemma FitDeleted(text: string, key: string)
    requires LinesFit(text, MAX_BUFFER_SIZE)
    ensures LinesFit(Deleted(text, key), MAX_BUFFER_SIZE)
  {
    LinesVisible(text);
    WithoutVisible(Lines(text), key);
    FitLines(text, MAX_BUFFER_SIZE);
    FitJoin(Without(Lines(text), key), "", MAX_BUFFER_SIZE);
    assert Join(Without(Lines(text), key)) + "" == Join(Without(Lines(text), key));
  }

  /** Where a pass stands: `rest` is still to be read, `kept` are the other lines so far. */
  predicate Passed(lines: seq<string>, rest: seq<string>, key: string, deleteConfig: bool, buffer: string, rc: Status, out: string,
                   kept: seq<string>)
  {
    && kept + Without(rest, key) == Without(lines, key)
    && (deleteConfig ==> rc == FAILURE && out == buffer)
    && (!deleteConfig ==> Overlaid(out, rest, key) == Overlaid(buffer, lines, key))
    && (!deleteConfig ==> (Find(lines, key).Some? <==> rc == SUCCESS || Find(rest, key).Some?))
  }

  lemma PassedStart(lines: seq<string>, key: string, deleteConfig: bool, buffer: string)
    ensures Passed(lines, lines, key, deleteConfig, buffer, FAILURE, buffer, [])
  {
    assert [] + Without(lines, key) == Without(lines, key);
  }

  lemma PassedStep(lines: seq<string>, rest: seq<string>, key: string, deleteConfig: bool, buffer: string, rc: Status, out: string,
                   kept: seq<string>)
    requires rest != [] && Passed(lines, rest, key, deleteConfig, buffer, rc, out, kept)
    ensures if KeyOf(rest[0]) == key then
              Passed(lines, rest[1..], key, deleteConfig, buffer, if deleteConfig then rc else SUCCESS,
                     if deleteConfig then out else Overlay(out, rest[0]), kept)
            else Passed(lines, rest[1..], key, deleteConfig, buffer, rc, out, kept + [rest[0]])
  {
    KeptStep(rest, key, kept);
    OverlaidStep(out, rest, key);
  }

  lemma KeptStep(rest: seq<string>, key: string, kept: seq<string>)
    requires rest != []
    ensures kept + Without(rest, key)
         == if KeyOf(rest[0]) == key then kept + Without(rest[1..], key) else kept + [rest[0]] + Without(rest[1..], key)
  {
    var more := Without(rest[1..], key);
    assert kept + ([rest[0]] + more) == kept + [rest[0]] + more;
    assert [] + more == more;
  }

  lemma OverlaidStep(out: string, rest: seq<string>, key: string)
    requires rest != []
    ensures Overlaid(out, rest, key)
         == if KeyOf(rest[0]) == key then Overlaid(Overlay(out, rest[0]), rest[1..], key) else Overlaid(out, rest[1..], key)
    ensures Find(rest, key).Some? <==> KeyOf(rest[0]) == key || Find(rest[1..], key).Some?
  {
  }
}
