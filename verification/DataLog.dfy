/**
 The rolling data log of device_data_logger.c: one record a line in data.txt, oldest first.
 Every change is prepared in the temp file and becomes visible by one rename.
 */
module DataLog {
  import opened Common
  import opened LineFiles

  const DATA_FILE: string := "data.txt"
  const MAX_DATA_LOGGER_SIZE_BYTES: nat := 100000

  /** Bytes the records occupy in the file. */
  function Size(records: seq<string>): nat {
    |Join(records)|
  }

  /** Oldest records are dropped until the file is below the limit. */
  function Evicted(records: seq<string>): seq<string>
    decreases |records|
  {
    if Size(records) < MAX_DATA_LOGGER_SIZE_BYTES then records else Evicted(records[1..])
  }

  function Saved(records: seq<string>, record: string): seq<string> {
    Evicted(records) + [record]
  }

  /** Eviction keeps the longest suffix whose size is below the limit, and nothing else goes. */
  lemma {:induction false} EvictedIsLongestSuffix(records: seq<string>) returns (dropped: nat)
    ensures dropped <= |records| && Evicted(records) == records[dropped..]
    ensures Size(Evicted(records)) < MAX_DATA_LOGGER_SIZE_BYTES
    ensures forall k :: 0 <= k < dropped ==> Size(records[k..]) >= MAX_DATA_LOGGER_SIZE_BYTES
    decreases |records|
  {
    if Size(records) < MAX_DATA_LOGGER_SIZE_BYTES {
      dropped := 0;
    } else {
      var d := EvictedIsLongestSuffix(records[1..]);
      dropped := d + 1;
      forall k | 0 <= k < dropped
        ensures Size(records[k..]) >= MAX_DATA_LOGGER_SIZE_BYTES
      {
        if k == 0 {
          assert records[0..] == records;
        } else {
          assert records[1..][k - 1..] == records[k..];
        }
      }
    }
  }

  /** The file never grows past the limit by more than one record. */
  lemma SavedSize(records: seq<string>, record: string)
    ensures Size(Saved(records, record)) < MAX_DATA_LOGGER_SIZE_BYTES + |record| + 1
  {
    var dropped := EvictedIsLongestSuffix(records);
    JoinAppend(Evicted(records), record);
  }

  /** The record just saved is never the one evicted, and a log below the limit loses nothing. */
  lemma SavedKeeps(records: seq<string>, record: string)
    ensures Saved(records, record)[|Saved(records, record)| - 1] == record
    ensures Size(records) < MAX_DATA_LOGGER_SIZE_BYTES ==> Saved(records, record) == records + [record]
  {
  }

  /** Two records are needed to reach the limit, so an eviction round always has a line to keep. */
  lemma FullLogHasTwo(records: seq<string>)
    requires AllClean(records) && Size(records) >= MAX_DATA_LOGGER_SIZE_BYTES
    ensures |records| >= 2
  {
    if |records| == 1 {
      assert records == [records[0]];
      SingleRecordFits(records[0]);
    }
  }

  lemma SingleRecordFits(record: string)
    requires Clean(record)
    ensures Size([record]) < MAX_DATA_LOGGER_SIZE_BYTES
  {
    assert Join([record]) == record + "\n" + Join([]);
  }

  /** The temp file after the first `n` lines of the log have been passed. */
  ghost function Copied(before: string, records: seq<string>, n: nat): string
    requires 1 <= n <= |records|
  {
    before + Join(records[1..n])
  }

  lemma CopiedStep(before: string, records: seq<string>, n: nat)
    requires 1 <= n < |records|
    ensures Copied(before, records, n) + records[n] + "\n" == Copied(before, records, n + 1)
  {
    JoinAppend(records[1..n], records[n]);
    assert records[1..n] + [records[n]] == records[1..n + 1];
  }

  class DataLogger {
    const disk: Disk
    ghost var records: seq<string>

    ghost predicate Valid()
      reads this, disk
    {
      && AllClean(records)
      && (if DATA_FILE in disk.files then disk.files[DATA_FILE] == Join(records) else records == [])
      && TEMP_FILE !in disk.files
    }

    /** data.txt may hold records from an earlier run. */
    constructor (disk: Disk, ghost records: seq<string>)
      requires AllClean(records)
      requires if DATA_FILE in disk.files then disk.files[DATA_FILE] == Join(records) else records == []
      requires TEMP_FILE !in disk.files
      ensures Valid() && this.disk == disk && this.records == records
    {
      this.disk := disk;
      this.records := records;
    }

    /** Copies every line of data.txt but the first one to the temp file. */
    method CopyAllButFirst() returns (first: Option<string>)
      requires AllClean(records)
      requires DATA_FILE in disk.files && disk.files[DATA_FILE] == Join(records)
      modifies disk
      ensures first == if records == [] then None else Some(records[0])
      ensures |records| <= 1 ==> disk.files == old(disk.files)
      ensures |records| >= 2 ==>
        disk.files == old(disk.files)[TEMP_FILE :=
          (if TEMP_FILE in old(disk.files) then old(disk.files)[TEMP_FILE] else "") + Join(records[1..])]
    {
      var fp := new InputFile(disk.files[DATA_FILE]);
      first := None;
      ghost var n := 0;
      ghost var start := disk.files;
      ghost var before := if TEMP_FILE in start then start[TEMP_FILE] else "";
      while true
        invariant 0 <= n <= |records| && fp.unread == Join(records[n..])
        invariant first == if n == 0 then None else Some(records[0])
        invariant disk.files == if n <= 1 then start else start[TEMP_FILE := Copied(before, records, n)]
        decreases |records| - n
      {
        CutJoin(records[n..]);
        assert n < |records| ==> Clean(records[n]);
        var tempBuffer := fp.ReadLine(LINE_BUFFER);
        if tempBuffer == "" {
          break;
        }
        assert tempBuffer == records[n] && records[n..][1..] == records[n + 1..];
        if first != None {
          CopiedStep(before, records, n);
          assert n == 1 ==> Copied(before, records, n) == before;
          var _ := disk.AppendLine(TEMP_FILE, tempBuffer);
        } else {
          first := Some(tempBuffer);
        }
        n := n + 1;
      }
      assert |records| >= 1 ==> records[1..|records|] == records[1..];
    }

    /** Saves a record, making room first; the file then holds exactly Saved(records, record). */
    method SaveRecord(record: string)
      requires Valid() && Clean(record)
      requires DATA_FILE in disk.files
      modifies this, disk
      ensures Valid() && records == Saved(old(records), record)
      ensures disk.files == old(disk.files)[DATA_FILE := Join(records)]
    {
      while true
        invariant Valid()
        invariant Evicted(records) == Evicted(old(records))
        invariant disk.files == old(disk.files)[DATA_FILE := Join(records)]
        decreases |records|
      {
        var currentFileSize := |disk.files[DATA_FILE]|;
        if currentFileSize < MAX_DATA_LOGGER_SIZE_BYTES {
          break;
        }
        FullLogHasTwo(records);
        var _ := CopyAllButFirst();
        var _ := disk.RenameFile(TEMP_FILE, DATA_FILE);
        assert "" + Join(records[1..]) == Join(records[1..]);
        records := records[1..];
      }
      disk.CopyFile(DATA_FILE, TEMP_FILE);
      var _ := disk.AppendLine(TEMP_FILE, record);
      var _ := disk.RenameFile(TEMP_FILE, DATA_FILE);
      JoinAppend(records, record);
      records := records + [record];
    }

    /** Takes the oldest record out of the log, if there is one, into a buffer of this capacity.  The capacity is not looked
        at: `overrun` tells that there is no room for the record and its NUL. */
    method GetNextRecord(maxLength: nat) returns (rc: Status, buffer: string, overrun: bool)
      requires Valid()
      modifies this, disk
      ensures Valid()
      ensures old(records) == [] ==> rc == FAILURE && buffer == "" && records == []
      ensures old(records) != [] ==> rc == SUCCESS && old(records) == [buffer] + records
      ensures overrun <==> old(records) != [] && |old(records)[0]| >= maxLength
      ensures disk.files == if DATA_FILE in old(disk.files) then old(disk.files)[DATA_FILE := Join(records)] else old(disk.files)
    {
      if DATA_FILE !in disk.files {
        var _ := disk.RenameFile(TEMP_FILE, DATA_FILE);
        return FAILURE, "", false;
      }
      var _ := disk.CreateEmptyFile(TEMP_FILE);
      var first := CopyAllButFirst();
      var _ := disk.RenameFile(TEMP_FILE, DATA_FILE);
      if first == None {
        return FAILURE, "", false;
      }
      assert "" + Join(records[1..]) == Join(records[1..]);
      records := records[1..];
      rc, buffer, overrun := SUCCESS, first.value, |first.value| >= maxLength;
    }
  }
}
