/** The chunked export loop of `logs_api/loader.py`. One day of a table is asked for in
    `parts_count` parts, numbered from zero. Each part's CSV is yielded chunk by chunk, and
    the loop is done once the last part has been read. A "not ready yet" or "too many
    requests" answer repeats the request. "Try to use more parts." doubles the number of
    parts and starts again from part zero, and a broken connection repeats the current
    part. Any other refusal ends the load with an error.

    The server is modelled by two inputs: the sequence of outcomes of successive export
    calls (`script`), and the chunks a complete answer for a given part holds (`parts`).
    Sleeping and logging are left out. */
module ExportLoader {
  import opened Common
  import opened LogsApiClient

  /** A chunk as `pandas.read_csv(..., chunksize=...)` yields it: rows of text cells. */
  type Frame = seq<seq<string>>

  /** What one export call did, as the loop sees it. */
  datatype Response =
    | Delivered              // status 200, and the whole answer was read
    | Broken(after: nat)     // `ProtocolError` once `after` chunks had been yielded
    | Refused(error: LogsApiError)

  /** The loop's variables `parts_count`, `part_number` and `progress`. */
  datatype Counters = Counters(partsCount: nat, partNumber: nat, progress: Option<nat>)

  /** How a load ended: every part read, a `ValueError`, or no more answers in the script. */
  datatype Outcome = Finished | Failed(message: string) | OutOfResponses

  /** The end of a load: how it ended, the counters then, and every chunk yielded. */
  datatype Run = Run(outcome: Outcome, counters: Counters, frames: seq<Frame>)

  predicate IsPowerOfTwo(n: nat)
  {
    n == 1 || (n > 1 && n % 2 == 0 && IsPowerOfTwo(n / 2))
  }

  /** What the loop keeps: the number of parts is a power of two, and the part number never
      passes it. */
  predicate Valid(c: Counters)
  {
    IsPowerOfTwo(c.partsCount) && c.partNumber <= c.partsCount
  }

  const MoreParts: string := "Try to use more parts."
  const ProgressMarker: string := "Progress is "

  // ----- the progress message -----

  /** The first line of a text: `.` in the progress pattern matches no newline, and
      `re.match` anchors the match at the start of the text. */
  function FirstLine(text: string): string
  {
    Split(text, '\n')[0]
  }

  /** The longest run of digits starting at `i` (what `\d+` takes, greedily). */
  function DigitRun(line: string, i: nat): (ds: string)
    requires i <= |line|
    ensures i + |ds| <= |line| && ds == line[i..i + |ds|]
    ensures forall k :: 0 <= k < |ds| ==> IsDigit(ds[k])
    ensures i + |ds| == |line| || !IsDigit(line[i + |ds|])
    decreases |line| - i
  {
    if i < |line| && IsDigit(line[i]) then
      var rest := DigitRun(line, i + 1);
      assert line[i..i + 1 + |rest|] == [line[i]] + rest;
      [line[i]] + rest
    else []
  }

  /** The number of a `Progress is <digits>%` that starts at position `i`, if one does. */
  function ProgressAt(line: string, i: nat): Option<nat>
    requires i <= |line|
  {
    var j := i + |ProgressMarker|;
    if j <= |line| && line[i..j] == ProgressMarker then
      var ds := DigitRun(line, j);
      if |ds| > 0 && j + |ds| < |line| && line[j + |ds|] == '%' then Some(DigitsValue(ds)) else None
    else None
  }

  /** The match that starts last among positions below `k`: the leading `.*` is greedy. */
  function LastProgress(line: string, k: nat): Option<nat>
    requires k <= |line|
  {
    if k == 0 then None
    else match ProgressAt(line, k - 1)
      case Some(p) => Some(p)
      case None => LastProgress(line, k - 1)
  }

  /** `self._progress_re.match(text)` with `.*Progress is (?P<progress>\d+)%.*`, and the
      group read as a number. */
  function ProgressOf(text: string): Option<nat>
  {
    var line := FirstLine(text);
    LastProgress(line, |line|)
  }

  /** Python's `str` of an integer. */
  function IntText(i: int): string
  {
    if i < 0 then "-" + NatToString(-i) else NatToString(i)
  }

  /** `'[{}] {}'.format(status_code, text)`: the status in brackets, then the text. */
  function ErrorText(status: int, text: string): (s: string)
    ensures |s| > |text| + 2 && s[0] == '['
    ensures s[1..|s| - |text| - 2] == IntText(status)
    ensures s[|s| - |text| - 2..] == "] " + text
  {
    var s := "[" + IntText(status) + "] " + text;
    assert s[1..|s| - |text| - 2] == IntText(status);
    assert s[|s| - |text| - 2..] == "] " + text;
    s
  }

  // ----- one refusal -----

  /** `Loader._process_error`. Status 202 keeps waiting, and records a new progress figure
      when the message carries one. Status 429 keeps waiting. Status 400 with
      "Try to use more parts." doubles the parts and starts again from part zero. Anything
      else is a `ValueError`. */
  function ProcessError(status: int, text: string, c: Counters): (r: Result<Counters, string>)
    ensures r.Err? <==> status != 202 && status != 429 && !(status == 400 && Contains(text, MoreParts))
    ensures r.Err? ==> r.error == ErrorText(status, text)
    ensures r.Ok? && status != 400 ==> r.value.partsCount == c.partsCount && r.value.partNumber == c.partNumber
    ensures r.Ok? && status == 400 ==> r.value == Counters(2 * c.partsCount, 0, c.progress)
    ensures r.Ok? && r.value.progress != c.progress ==> status == 202 && r.value.progress == ProgressOf(text)
    ensures status == 202 && ProgressOf(text).Some? ==> r.Ok? && r.value.progress == ProgressOf(text)
  {
    if status == 202 then
      match ProgressOf(text)
      case Some(p) => if Some(p) != c.progress then Ok(c.(progress := Some(p))) else Ok(c)
      case None => Ok(c)
    else if status == 429 then Ok(c)
    else if status == 400 && Contains(text, MoreParts) then
      Ok(Counters(c.partsCount * 2, 0, c.progress))
    else Err(ErrorText(status, text))
  }

  /** A refusal that is handled leaves the counters valid: doubling a power of two gives
      one, and part zero is within any count. */
  lemma ProcessErrorKeepsValid(status: int, text: string, c: Counters)
    requires Valid(c) && ProcessError(status, text, c).Ok?
    ensures Valid(ProcessError(status, text, c).value)
  {
    var r := ProcessError(status, text, c).value;
    if status == 400 {
      assert (2 * c.partsCount) / 2 == c.partsCount;
    }
  }

  // ----- the loop -----

  /** The chunks of a part up to a broken connection after `after` of them. */
  function Received(chunks: seq<Frame>, after: nat): seq<Frame>
  {
    if after < |chunks| then chunks[..after] else chunks
  }

  /** The loop from answer `i` on, with the counters `c` and the chunks yielded so far. */
  function LoadFrom(script: seq<Response>, i: nat, c: Counters, frames: seq<Frame>,
                    parts: (nat, nat) -> seq<Frame>): (r: Run)
    requires i <= |script|
    ensures frames <= r.frames
    decreases |script| - i
  {
    if c.partNumber >= c.partsCount then Run(Finished, c, frames)
    else if i == |script| then Run(OutOfResponses, c, frames)
    else match script[i]
      case Delivered =>
        LoadFrom(script, i + 1, c.(partNumber := c.partNumber + 1),
                 frames + parts(c.partsCount, c.partNumber), parts)
      case Broken(after) =>
        LoadFrom(script, i + 1, c, frames + Received(parts(c.partsCount, c.partNumber), after), parts)
      case Refused(e) =>
        match ProcessError(e.statusCode, e.text, c)
        case Err(message) => Run(Failed(message), c, frames)
        case Ok(next) => LoadFrom(script, i + 1, next, frames, parts)
  }

  /** `Loader.load`: one part, part zero, no progress yet, nothing yielded. */
  function LoadRun(script: seq<Response>, parts: (nat, nat) -> seq<Frame>): (r: Run)
    ensures Valid(r.counters)
    ensures r.outcome == Finished <==> r.counters.partNumber == r.counters.partsCount
  {
    LoadKeepsValid(script, 0, Counters(1, 0, None), [], parts);
    LoadFrom(script, 0, Counters(1, 0, None), [], parts)
  }

  /** `for df in self._split_response(r): yield df`, stopped after `count` chunks. */
  method YieldChunks(frames: seq<Frame>, chunks: seq<Frame>, count: nat) returns (out: seq<Frame>)
    requires count <= |chunks|
    ensures out == frames + chunks[..count]
  {
    out := frames;
    var j := 0;
    while j < count
      invariant 0 <= j <= count
      invariant out == frames + chunks[..j]
    {
      out := out + [chunks[j]];
      j := j + 1;
    }
  }

  /** `Loader.load`: the loop over parts, answering each refusal and retrying after a
      broken connection, until the part number reaches the number of parts. */
  method Load(script: seq<Response>, parts: (nat, nat) -> seq<Frame>) returns (run: Run)
    ensures run == LoadRun(script, parts)
    ensures Valid(run.counters)
    ensures run.outcome == Finished <==> run.counters.partNumber == run.counters.partsCount
  {
    var partsCount: nat, partNumber: nat, progress: Option<nat> := 1, 0, None;
    var frames: seq<Frame> := [];
    var i := 0;
    while partNumber < partsCount
      invariant i <= |script|
      invariant Valid(Counters(partsCount, partNumber, progress))
      invariant LoadFrom(script, i, Counters(partsCount, partNumber, progress), frames, parts)
             == LoadRun(script, parts)
      decreases |script| - i
    {
      if i == |script| {
        return Run(OutOfResponses, Counters(partsCount, partNumber, progress), frames);
      }
      var response := script[i];
      i := i + 1;
      match response
      case Delivered =>
        var chunks := parts(partsCount, partNumber);
        frames := YieldChunks(frames, chunks, |chunks|);
        assert chunks[..|chunks|] == chunks;
        partNumber := partNumber + 1;
      case Broken(after) =>
        var chunks := parts(partsCount, partNumber);
        var count := if after < |chunks| then after else |chunks|;
        frames := YieldChunks(frames, chunks, count);
        assert chunks[..count] == Received(chunks, after);
      case Refused(e) =>
        var c := Counters(partsCount, partNumber, progress);
        var next := ProcessError(e.statusCode, e.text, c);
        if next.Err? {
          return Run(Failed(next.error), c, frames);
        }
        ProcessErrorKeepsValid(e.statusCode, e.text, c);
        partsCount, partNumber, progress := next.value.partsCount, next.value.partNumber, next.value.progress;
    }
    return Run(Finished, Counters(partsCount, partNumber, progress), frames);
  }

  // ----- what a load promises -----

  /** Every load ends with valid counters, and it has finished exactly when the part
      number has reached the number of parts. */
  lemma {:induction false} LoadKeepsValid(script: seq<Response>, i: nat, c: Counters,
                                          frames: seq<Frame>, parts: (nat, nat) -> seq<Frame>)
    requires i <= |script| && Valid(c)
    ensures var r := LoadFrom(script, i, c, frames, parts);
      Valid(r.counters) && (r.outcome == Finished <==> r.counters.partNumber == r.counters.partsCount)
    decreases |script| - i
  {
    if c.partNumber < c.partsCount && i < |script| {
      match script[i]
      case Delivered =>
        LoadKeepsValid(script, i + 1, c.(partNumber := c.partNumber + 1),
                       frames + parts(c.partsCount, c.partNumber), parts);
      case Broken(after) =>
        LoadKeepsValid(script, i + 1, c, frames + Received(parts(c.partsCount, c.partNumber), after), parts);
      case Refused(e) =>
        if ProcessError(e.statusCode, e.text, c).Ok? {
          ProcessErrorKeepsValid(e.statusCode, e.text, c);
          LoadKeepsValid(script, i + 1, ProcessError(e.statusCode, e.text, c).value, frames, parts);
        }
    }
  }

  /** The chunks of parts `0 .. k - 1` of a `count`-part export, in part order. */
  function Parts(parts: (nat, nat) -> seq<Frame>, count: nat, k: nat): seq<Frame>
  {
    if k == 0 then [] else Parts(parts, count, k - 1) + parts(count, k - 1)
  }

  predicate IsSuffix<T(==)>(tail: seq<T>, s: seq<T>)
  {
    |tail| <= |s| && s[|s| - |tail|..] == tail
  }

  predicate NoBrokenFrom(script: seq<Response>, i: nat)
    requires i <= |script|
  {
    forall k :: i <= k < |script| ==> !script[k].Broken?
  }

  /** With no broken connection, the chunks yielded end with the parts read so far of the
      current split, in part order: a split restarted by "more parts" starts its run of
      parts afresh. */
  lemma {:induction false} CurrentSplitInOrder(script: seq<Response>, i: nat, c: Counters,
                                               frames: seq<Frame>, parts: (nat, nat) -> seq<Frame>)
    requires i <= |script| && NoBrokenFrom(script, i)
    requires IsSuffix(Parts(parts, c.partsCount, c.partNumber), frames)
    ensures var r := LoadFrom(script, i, c, frames, parts);
      IsSuffix(Parts(parts, r.counters.partsCount, r.counters.partNumber), r.frames)
    decreases |script| - i
  {
    if c.partNumber < c.partsCount && i < |script| {
      match script[i]
      case Delivered =>
        var next := frames + parts(c.partsCount, c.partNumber);
        assert LoadFrom(script, i, c, frames, parts)
            == LoadFrom(script, i + 1, c.(partNumber := c.partNumber + 1), next, parts);
        NextPartAppended(parts, c.partsCount, c.partNumber, frames);
        CurrentSplitInOrder(script, i + 1, c.(partNumber := c.partNumber + 1), next, parts);
      case Refused(e) =>
        var r := ProcessError(e.statusCode, e.text, c);
        if r.Ok? {
          assert LoadFrom(script, i, c, frames, parts) == LoadFrom(script, i + 1, r.value, frames, parts);
          RefusalKeepsSplit(e.statusCode, e.text, c, frames, parts);
          CurrentSplitInOrder(script, i + 1, r.value, frames, parts);
        }
    }
  }

  lemma NextPartAppended(parts: (nat, nat) -> seq<Frame>, count: nat, k: nat, frames: seq<Frame>)
    requires IsSuffix(Parts(parts, count, k), frames)
    ensures IsSuffix(Parts(parts, count, k + 1), frames + parts(count, k))
  {
    var next := frames + parts(count, k);
    var done := Parts(parts, count, k + 1);
    assert done == Parts(parts, count, k) + parts(count, k);
    assert next[|next| - |done|..] == done;
  }

  lemma RefusalKeepsSplit(status: int, text: string, c: Counters, frames: seq<Frame>,
                          parts: (nat, nat) -> seq<Frame>)
    requires ProcessError(status, text, c).Ok?
    requires IsSuffix(Parts(parts, c.partsCount, c.partNumber), frames)
    ensures var n := ProcessError(status, text, c).value;
      IsSuffix(Parts(parts, n.partsCount, n.partNumber), frames)
  {
    var n := ProcessError(status, text, c).value;
    if status == 400 {
      assert Parts(parts, n.partsCount, 0) == [];
    }
  }

  /** A load that finishes without a broken connection has yielded, last, every part of
      the final split in part order: the whole day, each row once. */
  lemma LoadYieldsFinalSplit(script: seq<Response>, parts: (nat, nat) -> seq<Frame>)
    requires NoBrokenFrom(script, 0)
    ensures var r := LoadRun(script, parts);
      r.outcome == Finished ==>
        IsSuffix(Parts(parts, r.counters.partsCount, r.counters.partsCount), r.frames)
  {
    CurrentSplitInOrder(script, 0, Counters(1, 0, None), [], parts);
  }

  /** When the server answers the first request in full, the load yields exactly that one
      part's chunks. */
  lemma SingleAnswer(script: seq<Response>, parts: (nat, nat) -> seq<Frame>)
    requires |script| >= 1 && script[0] == Delivered
    ensures LoadRun(script, parts) == Run(Finished, Counters(1, 1, None), parts(1, 0))
  {
    assert LoadRun(script, parts) == LoadFrom(script, 1, Counters(1, 1, None), [] + parts(1, 0), parts);
    assert [] + parts(1, 0) == parts(1, 0);
  }

  // ----- the progress figure -----

  /** The progress message reads back the figure it carries, wherever it stands on the
      first line, provided nothing after it could start another match. */
  lemma ProgressReadsBack(head: string, n: nat, tail: string)
    requires '\n' !in head && '\n' !in tail && 'P' !in tail
    ensures ProgressOf(head + ProgressMarker + NatToString(n) + "%" + tail) == Some(n)
  {
    var line := head + ProgressMarker + NatToString(n) + "%" + tail;
    SplitWithout(line, '\n');
    assert FirstLine(line) == line;
    ProgressStartsAt(head, n, tail);
    NoLaterStart(head, n, tail);
    NothingAfter(line, |head|, |line|);
  }

  lemma ProgressStartsAt(head: string, n: nat, tail: string)
    ensures var line := head + ProgressMarker + NatToString(n) + "%" + tail;
      |head| < |line| && ProgressAt(line, |head|) == Some(n)
  {
    var digits := NatToString(n);
    var line := head + ProgressMarker + digits + "%" + tail;
    var j := |head| + |ProgressMarker|;
    assert line[|head|..j] == ProgressMarker;
    assert line[j..j + |digits|] == digits;
    assert line[j + |digits|] == '%';
    DigitRunIs(line, j, digits);
    NatToStringValue(n);
  }

  lemma NoLaterStart(head: string, n: nat, tail: string)
    requires 'P' !in tail
    ensures var line := head + ProgressMarker + NatToString(n) + "%" + tail;
      forall k :: |head| < k < |line| ==> line[k] != 'P'
  {
    var digits := NatToString(n);
    var line := head + ProgressMarker + digits + "%" + tail;
    var start := |head|;
    var j := start + |ProgressMarker|;
    forall k | start < k < |line|
      ensures line[k] != 'P'
    {
      if k < j {
        assert line[k] == ProgressMarker[k - start];
      } else if k < j + |digits| {
        assert line[k] == digits[k - j];
      } else if k > j + |digits| {
        assert line[k] == tail[k - j - |digits| - 1];
      }
    }
  }

  /** Positions holding no `P` start no match. */
  lemma {:induction false} NothingAfter(line: string, start: nat, k: nat)
    requires start < k <= |line|
    requires forall q :: start < q < |line| ==> line[q] != 'P'
    ensures LastProgress(line, k) == LastProgress(line, start + 1)
    decreases k
  {
    if k > start + 1 {
      assert ProgressAt(line, k - 1) == None by {
        var j := k - 1 + |ProgressMarker|;
        if j <= |line| {
          assert line[k - 1..j][0] == line[k - 1] != ProgressMarker[0];
        }
      }
      NothingAfter(line, start, k - 1);
    }
  }

  /** `\d+` takes exactly the digits written before a non-digit. */
  lemma {:induction false} DigitRunIs(line: string, i: nat, ds: string)
    requires i + |ds| < |line| && line[i..i + |ds|] == ds
    requires forall k :: 0 <= k < |ds| ==> IsDigit(ds[k])
    requires !IsDigit(line[i + |ds|])
    ensures DigitRun(line, i) == ds
    decreases |ds|
  {
    if |ds| > 0 {
      assert line[i] == ds[0];
      assert line[i + 1..i + 1 + |ds[1..]|] == ds[1..];
      DigitRunIs(line, i + 1, ds[1..]);
      assert [ds[0]] + ds[1..] == ds;
    } else {
      assert !IsDigit(line[i]);
    }
  }

  /** The decimal text of a number reads back as the number. */
  lemma {:induction false} NatToStringValue(n: nat)
    ensures DigitsValue(NatToString(n)) == n
  {
    if n < 10 {
      DigitRoundTrip(n);
    } else {
      NatToStringValue(n / 10);
      var s := NatToString(n);
      assert s[..|s| - 1] == NatToString(n / 10);
      DigitRoundTrip(n % 10);
    }
  }
}
