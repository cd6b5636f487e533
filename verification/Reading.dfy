/** Bounded reading of byte strings: what a reader returns, what a reading method promises, and what an input shows. */
module Reading {
  import opened LittleEndian

  /** A value and the offset behind it, or the error that stopped the reader. */
  datatype ReadWith<+T, +E> = Got(value: T, at: nat) | Failed(error: E)

  datatype ResultWith<+T, +E> = Ok(value: T) | Err(error: E) {
    predicate IsFailure() { Err? }

    function PropagateFailure<U>(): ResultWith<U, E>
      requires Err?
    {
      Err(error)
    }

    function Extract(): T
      requires Ok?
    {
      value
    }
  }

  /** What a reading method promises: the specified value and offset, or the specified error. */
  ghost predicate Follows<T, E>(r: ResultWith<T, E>, offset: nat, spec: ReadWith<T, E>) {
    match spec
    case Got(value, at) => r == Ok(value) && offset == at
    case Failed(e) => r == Err(e)
  }

  /** The input shows these bytes at this offset. */
  predicate Shows(input: seq<byte>, at: nat, bytes: seq<byte>) {
    at + |bytes| <= |input| && input[at..at + |bytes|] == bytes
  }

  lemma ShowsMeans(input: seq<byte>, at: nat, bytes: seq<byte>)
    ensures Shows(input, at, bytes) <==> at + |bytes| <= |input| && input[at..at + |bytes|] == bytes
  {
  }

  lemma ShowsSplit(input: seq<byte>, at: nat, a: seq<byte>, b: seq<byte>)
    ensures Shows(input, at, a + b) <==> Shows(input, at, a) && Shows(input, at + |a|, b)
  {
    if at + |a| + |b| <= |input| {
      var whole := input[at..at + |a + b|];
      assert input[at..at + |a|] == whole[..|a|];
      assert input[at + |a|..at + |a| + |b|] == whole[|a|..];
      assert whole == whole[..|a|] + whole[|a|..];
      assert (a + b)[..|a|] == a && (a + b)[|a|..] == b;
    }
  }
}
