/**
 `JsonStream`, the Node `Readable` over one generator run. Each `_read`
 pulls whole tokens and pushes them until the code units pushed in the call
 exceed the requested size, `push` reports backpressure, or the generator
 is done; in the last case, and whenever the loop condition fails first, it
 pushes the end of the stream. Node's buffering is not modelled: `push` is a
 parameter that answers, for the code units the call has pushed so far
 (this token included), whether the consumer wants more.
 */
module JsonStream {
  import opened Wrappers
  import opened Tokens
  import opened Values
  import opened Reference
  import opened Generator
  import opened Equivalence

  /** The message of the error the generator throws on a cycle. */
  const CircularDependency := "Circular dependency detected"

  /** How a call to `_read` ended: returning with the stream still open,
      after `push(null)`, or by the generator's throw. */
  datatype Status = Paused | Ended | Errored(message: string)

  /** The code units a list of pushed tokens adds up to. */
  function Units(pushed: seq<string>): nat {
    Utf16Length(Concat(pushed))
  }

  /** Every push before the last was answered with true. */
  predicate AcceptedBeforeLast(pushed: seq<string>, push: nat -> bool) {
    forall k :: 0 < k < |pushed| ==> push(Units(pushed[..k]))
  }

  /** Pushing token `next` after tokens `pos` to `next`: the units add up
      and every earlier push stays accepted. */
  lemma Appended(tokens: seq<string>, pos: nat, next: nat, push: nat -> bool)
    requires pos <= next < |tokens|
    requires AcceptedBeforeLast(tokens[pos..next], push)
    requires next > pos ==> push(Units(tokens[pos..next]))
    ensures var before, after := tokens[pos..next], tokens[pos..next + 1];
            && after == before + [tokens[next]]
            && after[..|after| - 1] == before
            && Units(after) == Units(before) + Utf16Length(tokens[next])
            && AcceptedBeforeLast(after, push)
  {
    var before, after := tokens[pos..next], tokens[pos..next + 1];
    var token := tokens[next];
    assert after == before + [token];
    assert after[..|after| - 1] == before;
    assert Concat([token]) == token;
    ConcatAppend(before, [token]);
    Utf16Append(Concat(before), token);
    forall k | 0 < k < |after|
      ensures push(Units(after[..k]))
    {
      if k < |before| {
        assert after[..k] == before[..k];
      }
    }
  }

  /** One call of `_read(requestedSize)` with the generator standing before
      token `pos` of its run. */
  method Read(run: Run, pos: nat, requestedSize: int, push: nat -> bool)
    returns (pushed: seq<string>, next: nat, status: Status)
    requires pos <= |run.tokens|
    ensures pos <= next <= |run.tokens| && pushed == run.tokens[pos..next]
    ensures status.Errored? ==> run.Circular? && next == |run.tokens| && status.message == CircularDependency
    ensures status.Errored? ==> Units(pushed) < requestedSize
    ensures status.Paused? <==> pushed != [] && (!push(Units(pushed)) || Units(pushed) > requestedSize)
    ensures status.Ended? ==>
              || (run.Done? && next == |run.tokens|)
              || (pushed == [] && requestedSize <= 0)
              || (Units(pushed) == requestedSize && push(requestedSize))
    ensures pushed != [] ==> Units(pushed[..|pushed| - 1]) < requestedSize
    ensures AcceptedBeforeLast(pushed, push)
    ensures requestedSize > 0 && pos < |run.tokens| ==> pushed != []
  {
    pushed := [];
    next := pos;
    var readSize := 0;
    while readSize < requestedSize
      invariant pos <= next <= |run.tokens| && pushed == run.tokens[pos..next]
      invariant readSize == Units(pushed)
      invariant pushed != [] ==> readSize <= requestedSize && push(readSize)
      invariant pushed != [] ==> Units(pushed[..|pushed| - 1]) < requestedSize
      invariant AcceptedBeforeLast(pushed, push)
      decreases |run.tokens| - next
    {
      if next == |run.tokens| {
        if run.Circular? {
          status := Errored(CircularDependency);
          return;
        }
        break;
      }
      var token := run.tokens[next];
      Appended(run.tokens, pos, next, push);
      next := next + 1;
      pushed := pushed + [token];
      if !push(readSize + Utf16Length(token)) {
        status := Paused;
        return;
      }
      readSize := readSize + Utf16Length(token);
      if readSize > requestedSize {
        status := Paused;
        return;
      }
    }
    status := Ended;
  }

  /** Node's `push` answers false once the buffered bytes reach the
      high-water mark, and `_read` is asked for exactly that mark; the bytes
      a call has buffered are at least the code units it pushed, so `push`
      refuses at the latest when a call's pushes reach its requested size. */
  ghost predicate RefusesAtRequest(sizes: seq<int>, push: (nat, nat) -> bool) {
    forall i :: 0 <= i < |sizes| ==> sizes[i] > 0 && !push(i, sizes[i])
  }

  /** Successive calls of `_read` with the given requested sizes, call `i`
      answered by `push(i, _)`, until the stream ends or fails. */
  method Pump(run: Run, sizes: seq<int>, push: (nat, nat) -> bool) returns (delivered: seq<string>, status: Status)
    ensures delivered <= run.tokens
    ensures status.Errored? ==> run.Circular? && delivered == run.tokens
    ensures status.Ended? && RefusesAtRequest(sizes, push) ==> run.Done? && delivered == run.tokens
    ensures status.Paused? ==> |delivered| >= |sizes|
  {
    delivered := [];
    status := Paused;
    var pos := 0;
    var i := 0;
    while i < |sizes| && status.Paused?
      invariant 0 <= i <= |sizes|
      invariant pos <= |run.tokens| && delivered == run.tokens[..pos]
      invariant status.Errored? ==> run.Circular? && pos == |run.tokens|
      invariant status.Ended? ==>
                  || (run.Done? && pos == |run.tokens|)
                  || (0 < i && (sizes[i - 1] <= 0 || push(i - 1, sizes[i - 1])))
      invariant status.Paused? ==> |delivered| >= i
    {
      var call := i;
      var pushed, next, s := Read(run, pos, sizes[i], (k: nat) => push(call, k));
      delivered := delivered + pushed;
      pos, status, i := next, s, i + 1;
    }
  }

  /** `serialize(data)` read through: the text delivered is always a prefix
      of `JSON.stringify(data) ?? ""`, a failure is always a cycle, and
      under Node's backpressure an ended stream delivered all of it, however
      the reads were sized. Every call that leaves the stream open delivers
      a token, so more calls than there are tokens end or fail it. */
  method Serialize(h: Heap, root: Value, sizes: seq<int>, push: (nat, nat) -> bool) returns (text: string, status: Status)
    requires Closed(h) && Bound(h, root)
    ensures ToJson(h, root).Some? ==> text <= ToJson(h, root).value
    ensures status.Errored? ==> root.Ref? && CyclicFrom(h, root.id)
    ensures status.Ended? && RefusesAtRequest(sizes, push) ==> ToJson(h, root) == Some(text)
    ensures |sizes| > |Serializer(h, root).tokens| ==> !status.Paused?
  {
    var run := Serializer(h, root);
    var delivered;
    delivered, status := Pump(run, sizes, push);
    text := Concat(delivered);
    ConcatPrefix(run.tokens, |delivered|);
    assert run.tokens[..|delivered|] == delivered;
    SerializerMatchesJson(h, root);
    SerializerThrowsIffCyclic(h, root);
  }
}
