/** `java.util.StringJoiner` as the executor uses it: a delimiter, a prefix and a suffix,
    with elements added one at a time. */
module Joiners {

  import opened Options
  import opened Text

  /** `value` is the joiner's builder: absent until the first element is added, then the
      prefix followed by the elements separated by the delimiter. */
  datatype StringJoiner = StringJoiner(delimiter: string, prefix: string, suffix: string, value: Option<string>) {

    function Add(element: string): StringJoiner {
      match value
      case None => this.(value := Some(prefix + element))
      case Some(v) => this.(value := Some(v + delimiter + element))
    }

    /** With no element added, the result is prefix followed by suffix (the default empty value). */
    function ToString(): string {
      match value
      case None => prefix + suffix
      case Some(v) => v + suffix
    }
  }

  function NewJoiner(delimiter: string, prefix: string, suffix: string): StringJoiner {
    StringJoiner(delimiter, prefix, suffix, None)
  }

  /** The joiner after adding every element of `xs`, left to right. */
  function AddAll(j: StringJoiner, xs: seq<string>): StringJoiner
    decreases |xs|
  {
    if |xs| == 0 then j else AddAll(j, xs[..|xs| - 1]).Add(xs[|xs| - 1])
  }

  /** Adding elements keeps delimiter, prefix and suffix, and the builder holds the prefix
      followed by the joined elements. */
  lemma {:induction false} AddAllValue(d: string, p: string, s: string, xs: seq<string>)
    ensures AddAll(NewJoiner(d, p, s), xs).delimiter == d
    ensures AddAll(NewJoiner(d, p, s), xs).prefix == p
    ensures AddAll(NewJoiner(d, p, s), xs).suffix == s
    ensures AddAll(NewJoiner(d, p, s), xs).value == if |xs| == 0 then None else Some(p + Join(d, xs))
    decreases |xs|
  {
    if |xs| > 0 {
      var init := xs[..|xs| - 1];
      AddAllValue(d, p, s, init);
      if |init| > 0 {
        assert p + Join(d, init) + d + xs[|xs| - 1] == p + Join(d, xs);
      }
    }
  }

  /** What a joiner built by adding `xs` prints: the prefix, the elements separated by the
      delimiter, and the suffix — also when `xs` is empty. */
  lemma AddAllToString(d: string, p: string, s: string, xs: seq<string>)
    ensures AddAll(NewJoiner(d, p, s), xs).ToString() == p + Join(d, xs) + s
  {
    AddAllValue(d, p, s, xs);
  }

  lemma AddAllSnoc(j: StringJoiner, xs: seq<string>, x: string)
    ensures AddAll(j, xs + [x]) == AddAll(j, xs).Add(x)
  {
    assert (xs + [x])[..|xs + [x]| - 1] == xs;
  }

  lemma AddAllAppend(j: StringJoiner, xs: seq<string>, ys: seq<string>)
    ensures AddAll(j, xs + ys) == AddAll(AddAll(j, xs), ys)
    decreases |ys|
  {
    if |ys| == 0 {
      assert xs + ys == xs;
    } else {
      var init := ys[..|ys| - 1];
      var last := ys[|ys| - 1];
      assert ys == init + [last];
      assert xs + ys == (xs + init) + [last];
      AddAllSnoc(j, xs + init, last);
      AddAllAppend(j, xs, init);
      AddAllSnoc(AddAll(j, xs), init, last);
    }
  }

}
