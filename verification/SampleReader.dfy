/**
 * Rescanning a results file for one record's raw samples, and what the bounded
 * buffer then holds for a file the guest wrote.
 */
module SampleReader {
  import opened Text
  import opened ResultReader
  import S = Sampler

  datatype StoredSamples = StoredSamples(error: string, values: seq<uint32>, total: uint32, stride: uint32,
                                         found: bool, approximate: bool, trapped: bool)

  const RAW_OPEN := "    \"raw_results\": ["

  /** Scanner state; `done` once the selected record has closed. */
  datatype Rescan = Rescan(inRecord: bool, selected: bool, inSamples: bool, found: bool, done: bool, samples: S.State)

  const SCAN_START := Rescan(false, false, false, false, false, S.EMPTY)

  function HasBracket(line: string): bool {
    FindAny(line, "]", 0) < |line|
  }

  function CloseLine(s: Rescan, line: string): Rescan {
    if IsRecordEnd(line) then (if s.selected then s.(done := true) else s.(inRecord := false)) else s
  }

  function StepLine(s: Rescan, raw: string, id: string, limit: nat): Rescan
    requires limit >= 2
  {
    var line := DropReturn(raw);
    var lineId := ExtractJsonString(line, "id");
    if s.done || s.samples.trapped then s
    else if IsRecordStart(line) then s.(inRecord := true, selected := false, inSamples := false)
    else if !s.inRecord then s
    else if lineId.Some? then s.(selected := lineId.value == id, found := s.found || lineId.value == id)
    else if s.selected && StartsWith(line, RAW_OPEN) then s.(inSamples := !HasBracket(line))
    else if s.selected && s.inSamples && HasBracket(line) then s.(inSamples := false)
    else if s.selected && s.inSamples && ScanUnsigned(line).Some? then
      var added := S.Add(s.samples, ScanUnsigned(line).value, limit);
      if added.trapped then s.(samples := added) else CloseLine(s.(samples := added), line)
    else CloseLine(s, line)
  }

  function ScanAll(s: Rescan, lines: seq<string>, id: string, limit: nat): Rescan
    requires limit >= 2
    decreases |lines|
  {
    if lines == [] then s else ScanAll(StepLine(s, lines[0], id, limit), lines[1..], id, limit)
  }

  lemma {:induction false} ScanAppend(s: Rescan, a: seq<string>, b: seq<string>, id: string, limit: nat)
    requires limit >= 2
    ensures ScanAll(s, a + b, id, limit) == ScanAll(ScanAll(s, a, id, limit), b, id, limit)
    decreases |a|
  {
    hide StepLine;
    if a == [] {
      assert a + b == b;
    } else {
      assert (a + b)[0] == a[0] && (a + b)[1..] == a[1..] + b;
      ScanAppend(StepLine(s, a[0], id, limit), a[1..], b, id, limit);
    }
  }

  lemma ScanOne(s: Rescan, line: string, id: string, limit: nat)
    requires limit >= 2
    ensures ScanAll(s, [line], id, limit) == StepLine(s, line, id, limit)
  {
    hide StepLine;
    assert [line][1..] == [];
  }

  function Scanned(text: string, id: string, limit: nat): Rescan
    requires limit >= 2
  {
    ScanAll(SCAN_START, Lines(text), id, limit)
  }

  function ReadSamplesSpec(file: Option<string>, id: string, scratchBudgetBytes: nat): StoredSamples {
    if file.None? then StoredSamples("File unavailable", [], 0, 1, false, false, false)
    else
      var s := Scanned(file.value, id, S.Limit(scratchBudgetBytes));
      StoredSamples("", s.samples.values, s.samples.total, s.samples.stride, s.found, s.samples.approximate,
                    s.samples.trapped)
  }

  /** A state the scan can no longer leave. */
  lemma {:induction false} Settled(s: Rescan, lines: seq<string>, id: string, limit: nat)
    requires limit >= 2 && (s.done || s.samples.trapped)
    ensures ScanAll(s, lines, id, limit) == s
    decreases |lines|
  {
    if lines != [] {
      Settled(s, lines[1..], id, limit);
    }
  }

  lemma ScanFront(s: Rescan, lines: seq<string>, i: nat, id: string, limit: nat)
    requires limit >= 2 && i < |lines|
    ensures ScanAll(s, lines[i..], id, limit) == ScanAll(StepLine(s, lines[i], id, limit), lines[i + 1..], id, limit)
  {
    hide StepLine;
    assert lines[i..][0] == lines[i] && lines[i..][1..] == lines[i + 1..];
  }

  lemma ScanNothing(s: Rescan, id: string, limit: nat)
    requires limit >= 2
    ensures ScanAll(s, [], id, limit) == s
  {
  }

  method ReadStoredResultSamples(file: Option<string>, id: string, scratchBudgetBytes: nat)
    returns (result: StoredSamples)
    ensures result == ReadSamplesSpec(file, id, scratchBudgetBytes)
  {
    if file.None? {
      return StoredSamples("File unavailable", [], 0, 1, false, false, false);
    }
    hide Lines, ExtractJsonString, ScanUnsigned, S.Add, S.Compact, FindAny, DropReturn, StartsWith, HasBracket,
         IsRecordStart, IsRecordEnd, S.Limit, ScanAll;
    var buffer := new S.SampleBuffer(scratchBudgetBytes);
    ghost var limit := S.Limit(scratchBudgetBytes);
    ghost var done := false;
    var input := Lines(file.value);
    var inRecord, selected, inSamples, found := false, false, false, false;
    ghost var held := buffer.View();
    ghost var final := Scanned(file.value, id, limit);
    assert input[0..] == input;
    for i := 0 to |input|
      invariant fresh(buffer) && fresh(buffer.data) && buffer.Valid() && buffer.data.Length == limit
      invariant !buffer.trapped && !done
      invariant held == buffer.View()
      invariant final ==
                ScanAll(Rescan(inRecord, selected, inSamples, found, false, held), input[i..], id, limit)
    {
      ScanFront(Rescan(inRecord, selected, inSamples, found, false, held), input, i, id, limit);
      var line := DropReturn(input[i]);
      if IsRecordStart(line) {
        inRecord, selected, inSamples := true, false, false;
        continue;
      }
      if !inRecord {
        continue;
      }
      var lineId := ExtractJsonString(line, "id");
      if lineId.Some? {
        selected := lineId.value == id;
        found := found || selected;
        continue;
      }
      if selected && StartsWith(line, RAW_OPEN) {
        inSamples := !HasBracket(line);
        continue;
      }
      if selected && inSamples {
        if HasBracket(line) {
          inSamples := false;
          continue;
        }
        var value := ScanUnsigned(line);
        if value.Some? {
          buffer.AddSample(value.value);
          held := S.Add(held, value.value, limit);
          if buffer.trapped {
            Settled(Rescan(inRecord, selected, inSamples, found, done, held), input[i + 1..], id, limit);
            break;
          }
        }
      }
      if IsRecordEnd(line) {
        if selected {
          done := true;
          Settled(Rescan(inRecord, selected, inSamples, found, done, held), input[i + 1..], id, limit);
          break;
        }
        inRecord := false;
      }
    }
    ScanNothing(Rescan(inRecord, selected, inSamples, found, done, held), id, limit);
    assert final == Rescan(inRecord, selected, inSamples, found, done, held);
    return StoredSamples("", buffer.data[..buffer.size], buffer.totalCount, buffer.stride, found,
                         buffer.approximate, buffer.trapped);
  }
}
