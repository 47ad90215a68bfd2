/** The achievement-standards selection of step 2: the standards chosen for
    the subject on screen are merged with those kept from other subjects and
    stored as `sorted(set(...))`. */
module Standards {

  /** Python's `<` on `str`: lexicographic by code point, a proper prefix
      before the longer string. */
  predicate Less(a: string, b: string) {
    if a == [] then b != []
    else if b == [] then false
    else if a[0] != b[0] then a[0] < b[0]
    else Less(a[1..], b[1..])
  }

  lemma {:induction false} LessIrreflexive(a: string)
    ensures !Less(a, a)
  {
    if a != [] {
      LessIrreflexive(a[1..]);
    }
  }

  lemma {:induction false} LessTransitive(a: string, b: string, c: string)
    requires Less(a, b) && Less(b, c)
    ensures Less(a, c)
  {
    if a != [] && b != [] && c != [] && a[0] == b[0] == c[0] {
      LessTransitive(a[1..], b[1..], c[1..]);
    }
  }

  lemma {:induction false} LessTotal(a: string, b: string)
    ensures a == b || Less(a, b) || Less(b, a)
  {
    if a != [] && b != [] && a[0] == b[0] {
      LessTotal(a[1..], b[1..]);
      if a[1..] == b[1..] {
        assert a == [a[0]] + a[1..] && b == [b[0]] + b[1..];
      }
    }
  }

  lemma {:induction false} LessAsymmetric(a: string, b: string)
    requires Less(a, b)
    ensures !Less(b, a)
  {
    if a != [] && b != [] && a[0] == b[0] {
      LessAsymmetric(a[1..], b[1..]);
    }
  }

  /** Ascending with no repeats: what `sorted` makes of a set. */
  predicate StrictlySorted(s: seq<string>) {
    forall i, j :: 0 <= i < j < |s| ==> Less(s[i], s[j])
  }

  /** A strictly sorted list holds no element twice. */
  lemma StrictlySortedDistinct(s: seq<string>)
    requires StrictlySorted(s)
    ensures forall i, j :: 0 <= i < j < |s| ==> s[i] != s[j]
  {
    forall i, j | 0 <= i < j < |s| ensures s[i] != s[j] {
      LessIrreflexive(s[i]);
    }
  }

  /** Puts `x` into a strictly sorted list at its place, unless it is there already. */
  function Insert(x: string, s: seq<string>): (r: seq<string>)
    requires StrictlySorted(s)
    ensures StrictlySorted(r)
    ensures forall y :: y in r <==> y in s || y == x
  {
    if s == [] then [x]
    else if x == s[0] then s
    else if Less(x, s[0]) then
      assert forall j :: 0 < j < |s| ==> Less(x, s[j]) by {
        forall j | 0 < j < |s| ensures Less(x, s[j]) {
          LessTransitive(x, s[0], s[j]);
        }
      }
      [x] + s
    else
      LessTotal(x, s[0]);
      var rest := Insert(x, s[1..]);
      assert forall j :: 0 <= j < |rest| ==> Less(s[0], rest[j]) by {
        forall j | 0 <= j < |rest| ensures Less(s[0], rest[j]) {
          assert rest[j] in rest;
        }
      }
      [s[0]] + rest
  }

  /** `sorted(set(xs))`: the distinct elements of `xs` in ascending order. */
  function SortedUnique(xs: seq<string>): (r: seq<string>)
    ensures StrictlySorted(r)
    ensures forall y :: y in r <==> y in xs
  {
    if xs == [] then []
    else Insert(xs[|xs| - 1], SortedUnique(xs[..|xs| - 1]))
  }

  /** The first element of a strictly sorted list is below all others. */
  lemma HeadIsLeast(a: seq<string>, y: string)
    requires StrictlySorted(a) && y in a
    ensures y == a[0] || Less(a[0], y)
  {
  }

  /** There is one strictly sorted list of a given set of strings, so
      `sorted(set(xs))` depends only on which strings `xs` holds. */
  lemma {:induction false} StrictlySortedUnique(a: seq<string>, b: seq<string>)
    requires StrictlySorted(a) && StrictlySorted(b)
    requires forall y :: y in a <==> y in b
    ensures a == b
  {
    HasHead(a);
    HasHead(b);
    if a != [] && b != [] {
      HeadIsLeast(a, b[0]);
      HeadIsLeast(b, a[0]);
      LessTotal(a[0], b[0]);
      if Less(a[0], b[0]) {
        LessAsymmetric(a[0], b[0]);
      }
      assert a[0] == b[0];
      forall y ensures y in a[1..] <==> y in b[1..] {
        TailWithoutHead(a, y);
        TailWithoutHead(b, y);
      }
      StrictlySortedUnique(a[1..], b[1..]);
      assert a == [a[0]] + a[1..] && b == [b[0]] + b[1..];
    }
  }

  lemma HasHead(a: seq<string>)
    ensures a != [] ==> a[0] in a
  {
  }

  /** The tail of a strictly sorted list is the list without its head. */
  lemma TailWithoutHead(a: seq<string>, y: string)
    requires StrictlySorted(a) && a != []
    ensures y in a[1..] <==> y in a && y != a[0]
  {
    LessIrreflexive(a[0]);
    if y in a[1..] {
      var k :| 0 <= k < |a[1..]| && a[1..][k] == y;
      assert a[k + 1] == y;
    }
    if y in a && y != a[0] {
      var k :| 0 <= k < |a| && a[k] == y;
      assert a[1..][k - 1] == y;
    }
  }

  /** The items of `xs` that are in `pool` (when `inPool`) or not in it,
      in their order: a list comprehension with an `in` filter. */
  function Filter(xs: seq<string>, pool: seq<string>, inPool: bool): (r: seq<string>)
    ensures forall s :: s in r <==> s in xs && ((s in pool) == inPool)
  {
    if xs == [] then []
    else
      var rest := Filter(xs[1..], pool, inPool);
      assert forall s :: s in xs <==> s == xs[0] || s in xs[1..];
      if (xs[0] in pool) == inPool then [xs[0]] + rest else rest
  }

  /** The multiselect's preset: the kept standards that belong to the subject on screen. */
  function DefaultSelection(previous: seq<string>, current: seq<string>): seq<string> {
    Filter(previous, current, true)
  }

  /** The kept standards of the other subjects. */
  function OtherSubjects(previous: seq<string>, current: seq<string>): seq<string> {
    Filter(previous, current, false)
  }

  /** The new selection: the standards chosen for the subject on screen plus
      those kept from other subjects, sorted, without repeats. */
  function Merge(previous: seq<string>, current: seq<string>, chosen: seq<string>): (r: seq<string>)
    ensures StrictlySorted(r)
    ensures forall i, j :: 0 <= i < j < |r| ==> r[i] != r[j]
    ensures forall s :: s in r <==> s in chosen || (s in previous && s !in current)
  {
    var r := SortedUnique(OtherSubjects(previous, current) + chosen);
    StrictlySortedDistinct(r);
    r
  }

  /** Leaving the multiselect at its preset keeps the selection as it was,
      put in sorted order. */
  lemma MergeUntouched(previous: seq<string>, current: seq<string>)
    ensures Merge(previous, current, DefaultSelection(previous, current)) == SortedUnique(previous)
  {
    StrictlySortedUnique(Merge(previous, current, DefaultSelection(previous, current)), SortedUnique(previous));
  }

  /** Rendering step 2 again with the same choices changes nothing, as long
      as the choices are options of the subject on screen. */
  lemma MergeIdempotent(previous: seq<string>, current: seq<string>, chosen: seq<string>)
    requires forall s :: s in chosen ==> s in current
    ensures Merge(Merge(previous, current, chosen), current, chosen) == Merge(previous, current, chosen)
  {
    var once := Merge(previous, current, chosen);
    StrictlySortedUnique(Merge(once, current, chosen), once);
  }

  /** One record of a standards file: its subject (`교과`), code
      (`성취기준_코드`) and wording (`성취기준`); a missing key reads as "". */
  datatype StandardItem = StandardItem(subject: string, code: string, text: string)

  /** The options offered for `subject`: `"<code> <wording>"` for every item of
      that subject that has both a code and a wording, in file order. */
  function SubjectOptions(items: seq<StandardItem>, subject: string): (r: seq<string>)
    ensures |r| <= |items|
    ensures forall s :: s in r <==> exists it :: it in items && Offered(it, subject) && s == OptionText(it)
  {
    if items == [] then []
    else
      var rest := SubjectOptions(items[1..], subject);
      assert forall it :: it in items <==> it == items[0] || it in items[1..];
      if Offered(items[0], subject) then [OptionText(items[0])] + rest else rest
  }

  predicate Offered(it: StandardItem, subject: string) {
    it.subject == subject && it.code != "" && it.text != ""
  }

  function OptionText(it: StandardItem): string {
    it.code + " " + it.text
  }

  /** The stored selection after step 2 is shown: merged when the subject
      offers options, otherwise left as it was. */
  function AfterStep2(previous: seq<string>, current: seq<string>, chosen: seq<string>): (r: seq<string>)
    ensures current != [] ==> StrictlySorted(r)
    ensures current == [] ==> r == previous
    ensures current != [] ==> forall s :: s in r <==> s in chosen || (s in previous && s !in current)
  {
    if current == [] then previous else Merge(previous, current, chosen)
  }
}
