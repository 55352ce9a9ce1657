/** Option and Result wrappers shared by the modules of the sensor readings model. */
module Common {

  /** A value that may be missing: SQL NULL, a JSON null, an absent key. */
  datatype Option<+T> = None | Some(value: T)

  /** The outcome of an operation that either produces a value or an error message. */
  datatype Result<+T, +E> = Ok(value: T) | Err(error: E)

  /** Python truthiness of an optional string: present and not empty. */
  predicate Truthy(p: Option<string>)
  {
    p.Some? && p.value != ""
  }

  /** Joins lines with a newline between consecutive ones, like Python's '\n'.join. */
  function JoinLines(lines: seq<string>): (r: string)
    ensures lines == [] ==> r == ""
    ensures |lines| == 1 ==> r == lines[0]
    ensures lines != [] ==> lines[0] <= r
    ensures |lines| == 2 ==> r == lines[0] + "\n" + lines[1]
  {
    if lines == [] then ""
    else if |lines| == 1 then lines[0]
    else lines[0] + "\n" + JoinLines(lines[1..])
  }

  /** Extending a prefix by one element. */
  lemma PrefixStep<T>(s: seq<T>, i: nat)
    requires i < |s|
    ensures s[..i + 1] == s[..i] + [s[i]]
  {
  }

  /** Removing the element at index k removes one occurrence of it. */
  lemma RemoveAt<T>(b: seq<T>, k: nat)
    requires k < |b|
    ensures multiset(b[..k] + b[k + 1..]) == multiset(b) - multiset{b[k]}
  {
    assert b == b[..k] + [b[k]] + b[k + 1..];
  }

  /** Two multisets that agree once one shared occurrence is taken out are equal. */
  lemma RestoreOne<T>(a: multiset<T>, b: multiset<T>, x: T)
    requires x in a && x in b && a - multiset{x} == b - multiset{x}
    ensures a == b
  {
    assert a == (a - multiset{x}) + multiset{x};
    assert b == (b - multiset{x}) + multiset{x};
  }

  /** Dropping the first element removes one occurrence of it. */
  lemma DropFirst<T>(s: seq<T>)
    requires s != []
    ensures multiset(s[1..]) == multiset(s) - multiset{s[0]}
  {
    RemoveAt(s, 0);
    assert s[..0] + s[1..] == s[1..];
  }

  /** Swapping the last two elements keeps the same elements. */
  lemma SwapLastTwo<T>(p: seq<T>, a: T, b: T)
    ensures multiset(p + [a, b]) == multiset(p + [b, a])
  {
    assert multiset([a, b]) == multiset([b, a]);
  }
}
