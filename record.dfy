/** The wizard's session record: a flat map from field key to the value the
    form stored there. */
module Record {
  import opened Strings

  /** One session value: a text answer, a list of chosen items, or the
      scalars the session also holds (the page number, checkbox flags). */
  datatype Value = Text(s: string) | Items(xs: seq<string>) | Number(n: int) | Flag(b: bool)

  type FormRecord = map<string, Value>

  datatype Option<T> = None | Some(value: T)

  /** Python's `repr` of a list of strings, for strings that need no escaping. */
  function ListRepr(xs: seq<string>): string {
    "[" + Join(", ", seq(|xs|, i requires 0 <= i < |xs| => "'" + xs[i] + "'")) + "]"
  }

  /** Python's `str(value)`. */
  function PyStr(v: Value): string {
    match v
    case Text(s) => s
    case Items(xs) => ListRepr(xs)
    case Number(n) => IntToString(n)
    case Flag(b) => if b then "True" else "False"
  }

  /** Values that Python can iterate over in `"\n".join(...)`: a list yields
      its items, a string its characters; numbers and flags raise `TypeError`. */
  predicate Iterable(v: Value) {
    v.Text? || v.Items?
  }

  /** The elements a `for` over an iterable value yields. */
  function Elements(v: Value): (r: seq<string>)
    requires Iterable(v)
    ensures v.Items? ==> r == v.xs
    ensures v.Text? ==> |r| == |v.s| && forall i :: 0 <= i < |r| ==> r[i] == [v.s[i]]
  {
    if v.Items? then v.xs else seq(|v.s|, i requires 0 <= i < |v.s| => [v.s[i]])
  }

  /** A text put in a list row is iterated character by character: joined
      with line breaks and split again, it gives one line per character. */
  lemma TextIteratesByCharacter(s: string)
    requires s != [] && '\n' !in s
    ensures var lines := Split(Join("\n", Elements(Text(s))), '\n');
      |lines| == |s| && forall i :: 0 <= i < |s| ==> lines[i] == [s[i]]
  {
    var e := Elements(Text(s));
    forall i | 0 <= i < |e| ensures '\n' !in e[i] {
      assert e[i] == [s[i]];
    }
    SplitJoin(e, '\n');
  }
}
