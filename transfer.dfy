/**
 * What the two entry-transfer loops of utils/utils.go compute, as functions of the member stream
 * and of the error every write through the tar writer meets (None while the writer accepts).
 * `Drain` is `AddTarFromWriter`'s loop; `DrainSwallowing` is `AddTarFromBuffer`'s, whose
 * `err :=` inside the loop body declares a fresh variable, so a write or copy failure ends the
 * loop without reaching the function's result.
 */
module Transfer {
  import opened Base
  import opened Archive

  /** The records a loop wrote, and the error it ended with. */
  datatype Outcome = Outcome(records: seq<Record>, err: Option<Error>)

  /** No member of ms had its body cut short. */
  predicate Intact(ms: seq<Member>)
  {
    forall i :: 0 <= i < |ms| ==> ms[i].fault.None?
  }

  /**
   * `AddTarFromWriter`'s loop: members go to the writer in the order `Next` yields them, header
   * then body; `io.EOF` ends it with success; the first `Next`, `WriteHeader` or copy error ends it
   * and is its result.
   */
  function Drain(ms: seq<Member>, end: End, refusal: Option<Error>): Outcome
  {
    if ms == [] then Outcome([], EndError(end))
    else if refusal.Some? then Outcome([], refusal)
    else if ms[0].fault.Some? then Outcome(Records(ms[0]), ms[0].fault)
    else
      var rest := Drain(ms[1..], end, refusal);
      Outcome(Records(ms[0]) + rest.records, rest.err)
  }

  /**
   * What `Drain` writes is always whole members from the front of the stream, in order; it
   * succeeds exactly when the stream ends with `io.EOF`, the writer accepts, and no body is cut
   * short, and then it has written every member.
   */
  lemma {:induction false} DrainWritesAPrefix(ms: seq<Member>, end: End, refusal: Option<Error>)
    ensures var o := Drain(ms, end, refusal);
            |o.records| <= 2 * |ms| && o.records == Flatten(ms[..|o.records| / 2])
    ensures var o := Drain(ms, end, refusal);
            o.err.None? <==> end.Eof? && (ms == [] || refusal.None?) && Intact(ms)
    ensures var o := Drain(ms, end, refusal);
            o.err.None? ==> o.records == Flatten(ms)
    ensures refusal.Some? && ms != [] ==> Drain(ms, end, refusal) == Outcome([], refusal)
    ensures refusal.None? && Intact(ms) ==> Drain(ms, end, refusal) == Outcome(Flatten(ms), EndError(end))
  {
    if ms == [] {
    } else if refusal.Some? {
    } else if ms[0].fault.Some? {
      assert ms[..1] == [ms[0]];
    } else {
      DrainWritesAPrefix(ms[1..], end, refusal);
      var rest := Drain(ms[1..], end, refusal);
      var k := |rest.records| / 2;
      assert |rest.records| == 2 * k;
      assert |Records(ms[0]) + rest.records| / 2 == k + 1;
      assert ms[..k + 1][1..] == ms[1..][..k];
      assert Flatten(ms[..k + 1]) == Records(ms[0]) + Flatten(ms[1..][..k]);
      IntactCons(ms);
    }
  }

  /** A non-empty run arrives whole exactly when its first member and the rest do. */
  lemma IntactCons(ms: seq<Member>)
    requires ms != []
    ensures Intact(ms) <==> ms[0].fault.None? && Intact(ms[1..])
  {
    if ms[0].fault.None? && Intact(ms[1..]) {
      forall i | 0 <= i < |ms| ensures ms[i].fault.None? {
        if i > 0 { assert ms[i] == ms[1..][i - 1]; }
      }
    }
  }

  /** `AddTarFromBuffer`'s loop: the same writes as `Drain`, but only an error from `Next` is kept. */
  function DrainSwallowing(ms: seq<Member>, end: End, refusal: Option<Error>): (o: Outcome)
  {
    if ms == [] then Outcome([], EndError(end))
    else if refusal.Some? then Outcome([], None)
    else if ms[0].fault.Some? then Outcome(Records(ms[0]), None)
    else
      var rest := DrainSwallowing(ms[1..], end, refusal);
      Outcome(Records(ms[0]) + rest.records, rest.err)
  }

  /** Both loops write the same records; the swallowing loop reports an error only when `Next` gave it, where `Drain` reports the same one. */
  lemma {:induction false} SwallowingWritesTheSame(ms: seq<Member>, end: End, refusal: Option<Error>)
    ensures DrainSwallowing(ms, end, refusal).records == Drain(ms, end, refusal).records
    ensures DrainSwallowing(ms, end, refusal).err ==
              if (ms == [] || refusal.None?) && Intact(ms) then EndError(end) else None
    ensures DrainSwallowing(ms, end, refusal).err.Some? ==> DrainSwallowing(ms, end, refusal).err == Drain(ms, end, refusal).err
  {
    if ms != [] && refusal.None? && ms[0].fault.None? {
      SwallowingWritesTheSame(ms[1..], end, refusal);
      IntactCons(ms);
    }
  }

  /** Members that all arrive whole, followed by more such members. */
  lemma IntactJoin(a: seq<Member>, b: seq<Member>)
    requires Intact(a) && Intact(b)
    ensures Intact(a + b)
  {
    forall i | 0 <= i < |a + b| ensures (a + b)[i].fault.None? {
      if i >= |a| { assert (a + b)[i] == b[i - |a|]; }
    }
  }

  /** Runs of members that all arrive whole, one after the other. */
  lemma {:induction false} IntactConcat(mss: seq<seq<Member>>)
    requires forall k :: 0 <= k < |mss| ==> Intact(mss[k])
    ensures Intact(Concat(mss))
  {
    if mss != [] {
      IntactConcat(mss[1..]);
      IntactJoin(mss[0], Concat(mss[1..]));
    }
  }

  /** A loop that has written `written` and will still produce `d` ends with the outcome `o`. */
  predicate Resumes(o: Outcome, written: seq<Record>, d: Outcome)
  {
    o.records == written + d.records && o.err == d.err
  }

  lemma AppendAssoc<T>(a: seq<T>, b: seq<T>, c: seq<T>)
    ensures a + b + c == a + (b + c)
  {
  }

  /** The stream has ended: the loop's outcome is what it has written, with `Next`'s error. */
  lemma DrainEnds(o: Outcome, written: seq<Record>, end: End, refusal: Option<Error>)
    requires Resumes(o, written, Drain([], end, refusal))
    ensures o == Outcome(written, EndError(end))
  {
    assert written + [] == written;
  }

  /** One member handed to a writer whose error is `refusal`: what it adds, and where the loop goes next. */
  lemma DrainAdvances(o: Outcome, written: seq<Record>, ms: seq<Member>, end: End, refusal: Option<Error>,
                      added: seq<Record>, werr: Option<Error>)
    requires ms != [] && Resumes(o, written, Drain(ms, end, refusal))
    requires werr == (if refusal.Some? then refusal else ms[0].fault)
    requires added == (if refusal.None? then Records(ms[0]) else [])
    ensures werr.Some? ==> o == Outcome(written + added, werr)
    ensures werr.None? ==> Resumes(o, written + added, Drain(ms[1..], end, refusal))
  {
    if werr.Some? {
      assert Drain(ms, end, refusal) == Outcome(added, werr);
    } else {
      AppendAssoc(written, added, Drain(ms[1..], end, refusal).records);
    }
  }

  lemma DrainSwallowingEnds(o: Outcome, written: seq<Record>, end: End, refusal: Option<Error>)
    requires Resumes(o, written, DrainSwallowing([], end, refusal))
    ensures o == Outcome(written, EndError(end))
  {
    assert written + [] == written;
  }

  lemma DrainSwallowingAdvances(o: Outcome, written: seq<Record>, ms: seq<Member>, end: End, refusal: Option<Error>,
                                added: seq<Record>, werr: Option<Error>)
    requires ms != [] && Resumes(o, written, DrainSwallowing(ms, end, refusal))
    requires werr == (if refusal.Some? then refusal else ms[0].fault)
    requires added == (if refusal.None? then Records(ms[0]) else [])
    ensures werr.Some? ==> o == Outcome(written + added, None)
    ensures werr.None? ==> Resumes(o, written + added, DrainSwallowing(ms[1..], end, refusal))
  {
    if werr.Some? {
      assert DrainSwallowing(ms, end, refusal) == Outcome(added, None);
    } else {
      AppendAssoc(written, added, DrainSwallowing(ms[1..], end, refusal).records);
    }
  }

  /** A writer that refuses, or a body cut short, is an error for `AddTarFromWriter` and a success for `AddTarFromBuffer`. */
  lemma WriterErrorIsSwallowed(ms: seq<Member>, end: End, refusal: Option<Error>)
    requires ms != [] && (refusal.Some? || !Intact(ms))
    ensures Drain(ms, end, refusal).err.Some?
    ensures DrainSwallowing(ms, end, refusal).err.None?
  {
    SwallowingWritesTheSame(ms, end, refusal);
    DrainWritesAPrefix(ms, end, refusal);
  }

  /** The members of two streams drained one after the other appear in the writer source by source. */
  lemma DrainTwoSources(a: seq<Member>, b: seq<Member>, end: End)
    requires Intact(a) && Intact(b)
    ensures Drain(a, Eof, None).records + Drain(b, end, None).records == Flatten(a + b)
  {
    DrainWritesAPrefix(a, Eof, None);
    DrainWritesAPrefix(b, end, None);
    FlattenAppend(a, b);
  }
}
