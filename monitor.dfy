/**
 * The change detection of check_audio.py's main loop: each second the
 * default device's mix format is read, and it is printed when it differs
 * from the one printed last. The loop's one variable is `prev`, the format
 * printed last (initially `None`); a poll that raises is reported and
 * leaves `prev` alone.
 *
 * A run is modelled over a finite sequence of poll outcomes; the value of
 * the model is the sequence of formats the loop prints.
 */
module Monitor {
  import opened Wrappers
  import opened LittleEndian
  import opened WaveFormat

  /** One iteration's call to `get_default_output_format()`: a format, or an exception. */
  datatype Poll = Read(fmt: Format) | Failed

  /** The loop's variable `prev` and the formats printed so far. */
  datatype State = State(prev: Option<Format>, emitted: seq<Format>)

  const Start := State(None, [])

  /**
   * One iteration of the loop body. A failure changes nothing; after a read
   * `prev` holds the format read, and at most that format was printed.
   */
  function Step(s: State, p: Poll): (t: State)
    ensures p.Failed? ==> t == s
    ensures p.Read? ==> t.prev == Some(p.fmt)
    ensures t.emitted == s.emitted || (p.Read? && t.emitted == s.emitted + [p.fmt])
  {
    match p
    case Failed => s
    case Read(f) => if Some(f) != s.prev then State(Some(f), s.emitted + [f]) else s
  }

  /**
   * The loop over a sequence of polls, first poll first. What was printed
   * stays printed, and each poll prints at most one line.
   */
  function Run(s: State, polls: seq<Poll>): (r: State)
    ensures |s.emitted| <= |r.emitted| <= |s.emitted| + |polls|
    ensures r.emitted[..|s.emitted|] == s.emitted
    decreases |polls|
  {
    if polls == [] then s else Run(Step(s, polls[0]), polls[1..])
  }

  /** The loop itself: the formats it prints for the given polls. */
  method Watch(polls: seq<Poll>) returns (emitted: seq<Format>)
    ensures emitted == Run(Start, polls).emitted
  {
    var prev: Option<Format> := None;
    emitted := [];
    var i := 0;
    while i < |polls|
      invariant 0 <= i <= |polls|
      invariant Run(State(prev, emitted), polls[i..]) == Run(Start, polls)
    {
      match polls[i] {
        case Read(fmt) =>
          if Some(fmt) != prev {
            emitted := emitted + [fmt];
            prev := Some(fmt);
          }
        case Failed =>
      }
      i := i + 1;
    }
  }

  /** The outcome of one call: a parse that raises is a failed poll. */
  function PollOf(r: Result<Format, ParseError>): (p: Poll)
    ensures p.Failed? <==> r.Failure?
    ensures p.Read? ==> p.fmt == r.value
  {
    match r
    case Success(f) => Read(f)
    case Failure(_) => Failed
  }

  // ---------------------------------------------------------------------
  // Reference definitions
  // ---------------------------------------------------------------------

  /** The most recent successfully read format, if any. */
  function LastRead(polls: seq<Poll>): Option<Format> {
    if polls == [] then None
    else if polls[|polls| - 1].Read? then Some(polls[|polls| - 1].fmt)
    else LastRead(polls[..|polls| - 1])
  }

  function LastOf(fs: seq<Format>): Option<Format> {
    if fs == [] then None else Some(fs[|fs| - 1])
  }

  predicate NoRepeats(fs: seq<Format>) {
    forall j :: 0 <= j < |fs| - 1 ==> fs[j] != fs[j + 1]
  }

  /**
   * What the loop keeps true: `prev` is the format printed last (it changes
   * only when something is printed), and no format is printed twice in a row.
   */
  predicate Consistent(s: State) {
    s.prev == LastOf(s.emitted) && NoRepeats(s.emitted)
  }

  // ---------------------------------------------------------------------
  // Lemmas
  // ---------------------------------------------------------------------

  lemma {:induction false} RunAppend(s: State, a: seq<Poll>, b: seq<Poll>)
    ensures Run(s, a + b) == Run(Run(s, a), b)
    decreases |a|
  {
    if a == [] {
      assert a + b == b;
    } else {
      assert (a + b)[1..] == a[1..] + b;
      RunAppend(Step(s, a[0]), a[1..], b);
    }
  }

  lemma RunSnoc(s: State, polls: seq<Poll>, p: Poll)
    ensures Run(s, polls + [p]) == Step(Run(s, polls), p)
  {
    RunAppend(s, polls, [p]);
  }

  /** A failed poll prints nothing and leaves `prev` as it was. */
  lemma FailedPollChangesNothing(s: State, polls: seq<Poll>)
    ensures Run(s, polls + [Failed]) == Run(s, polls)
  {
    RunSnoc(s, polls, Failed);
  }

  lemma StepKeepsConsistent(s: State, p: Poll)
    requires Consistent(s)
    ensures Consistent(Step(s, p))
  {
  }

  lemma {:induction false} RunKeepsConsistent(polls: seq<Poll>)
    ensures Consistent(Run(Start, polls))
  {
    if polls != [] {
      var init := polls[..|polls| - 1];
      assert polls == init + [polls[|polls| - 1]];
      RunKeepsConsistent(init);
      RunSnoc(Start, init, polls[|polls| - 1]);
      StepKeepsConsistent(Run(Start, init), polls[|polls| - 1]);
    }
  }

  /** After any polls, `prev` is the most recent format that was read successfully. */
  lemma {:induction false} PrevIsLastRead(polls: seq<Poll>)
    ensures Run(Start, polls).prev == LastRead(polls)
  {
    if polls != [] {
      var init := polls[..|polls| - 1];
      assert polls == init + [polls[|polls| - 1]];
      PrevIsLastRead(init);
      RunSnoc(Start, init, polls[|polls| - 1]);
    }
  }

  /**
   * A successful poll prints its format exactly when it differs, on every
   * field including the label, from the format printed last; in
   * particular the first successful poll always prints.
   */
  lemma EmitsExactlyOnChange(polls: seq<Poll>, f: Format)
    ensures
      var before := Run(Start, polls).emitted;
      Run(Start, polls + [Read(f)]).emitted ==
        if LastOf(before) != Some(f) then before + [f] else before
  {
    RunKeepsConsistent(polls);
    RunSnoc(Start, polls, Read(f));
  }

  /** The same rule stated on the polls alone: a read prints when it differs from the previous read. */
  lemma EmitsWhenReadDiffers(polls: seq<Poll>, f: Format)
    ensures
      var before := Run(Start, polls).emitted;
      Run(Start, polls + [Read(f)]).emitted ==
        if LastRead(polls) != Some(f) then before + [f] else before
  {
    PrevIsLastRead(polls);
    RunSnoc(Start, polls, Read(f));
  }

  /** Polls that all failed print nothing; the first successful one is then printed. */
  lemma {:induction false} FirstReadEmitted(polls: seq<Poll>, f: Format)
    requires forall i :: 0 <= i < |polls| ==> polls[i].Failed?
    ensures Run(Start, polls) == Start
    ensures Run(Start, polls + [Read(f)]).emitted == [f]
  {
    if polls != [] {
      var init := polls[..|polls| - 1];
      assert polls == init + [Failed];
      FirstReadEmitted(init, f);
      FailedPollChangesNothing(Start, init);
    }
    RunSnoc(Start, polls, Read(f));
  }

  /** A poll fed from the parser fails exactly for a null address, and a read carries its tag's label. */
  lemma ParsedPoll(mem: seq<Byte>, addr: Address)
    requires Trusted(mem, addr)
    ensures var p := PollOf(ParseWaveFormat(mem, addr));
      (p.Failed? <==> IsNull(addr)) &&
      (p.Read? ==> p.fmt.formatTagStr == TagLabel(p.fmt.formatTag))
  {
  }

  /**
   * For two polls fed from the parser, the loop's whole-format comparison
   * is a comparison of the seven numeric fields: the label never decides a
   * change on its own.
   */
  lemma ParsedPollsCompareOnNumbers(mem1: seq<Byte>, addr1: Address, mem2: seq<Byte>, addr2: Address)
    requires Trusted(mem1, addr1) && Trusted(mem2, addr2)
    requires !IsNull(addr1) && !IsNull(addr2)
    ensures var p1, p2 := PollOf(ParseWaveFormat(mem1, addr1)), PollOf(ParseWaveFormat(mem2, addr2));
      p1.Read? && p2.Read? &&
      (p1.fmt == p2.fmt <==>
        p1.fmt.formatTag == p2.fmt.formatTag && p1.fmt.channels == p2.fmt.channels &&
        p1.fmt.sampleRate == p2.fmt.sampleRate && p1.fmt.bitsPerSample == p2.fmt.bitsPerSample &&
        p1.fmt.avgBytesPerSec == p2.fmt.avgBytesPerSec && p1.fmt.blockAlign == p2.fmt.blockAlign &&
        p1.fmt.cbSize == p2.fmt.cbSize)
  {
  }
}
