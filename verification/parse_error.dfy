/** Parse errors and their rendering (src/parser/parse_error.rs). The
    printable spellings of a kind (`SyntaxKind::to_strs`) are not part of
    this model, so rendering takes them as a parameter. */
module ParseErrors {

  import opened Wrappers
  import opened Lexer
  import opened Decimal

  /** A text offset (`TextSize` is a `u32`). */
  newtype u32 = x: int | 0 <= x < 0x1_0000_0000

  /** What was expected (a sorted set), what was found, and where. */
  datatype ParseError = ParseError(expected: set<SyntaxKind>, found: Option<SyntaxKind>, start: u32, end: u32)

  // ---------------------------------------------------------------------
  // The expected set in `BTreeSet` order

  /** Strictly ascending in the derived order, hence without repeats. */
  predicate StrictlySorted(ks: seq<SyntaxKind>) {
    forall i, j :: 0 <= i < j < |ks| ==> Ordinal(ks[i]) < Ordinal(ks[j])
  }

  /** The kinds of `s` with ordinal at least `n`, in ascending order. */
  function KindsFrom(s: set<SyntaxKind>, n: nat): (r: seq<SyntaxKind>)
    ensures forall i :: 0 <= i < |r| ==> r[i] in s && n <= Ordinal(r[i])
    ensures StrictlySorted(r)
    decreases KindCount - n
  {
    if n >= KindCount then []
    else
      var rest := KindsFrom(s, n + 1);
      match KindOf(n)
      case Some(k) =>
        KindOfInverse(n);
        if k in s then [k] + rest else rest
      case None => rest
  }

  /** Every kind of `s` at or past ordinal `n` is listed. */
  lemma {:induction false} KindsFromComplete(s: set<SyntaxKind>, n: nat, k: SyntaxKind)
    requires k in s && n <= Ordinal(k)
    ensures k in KindsFrom(s, n)
    decreases KindCount - n
  {
    OrdinalRoundTrip(k);
    if n < Ordinal(k) {
      KindsFromComplete(s, n + 1, k);
    } else {
      KindOfInverse(n);
    }
  }

  /** Iterating a `BTreeSet`: each member once, in ascending order. */
  function Sorted(s: set<SyntaxKind>): (r: seq<SyntaxKind>)
    ensures forall k :: k in r <==> k in s
    ensures StrictlySorted(r)
  {
    KindsFromAll(s);
    KindsFrom(s, 0)
  }

  lemma KindsFromAll(s: set<SyntaxKind>)
    ensures forall k :: k in s ==> k in KindsFrom(s, 0)
  {
    forall k | k in s
      ensures k in KindsFrom(s, 0)
    {
      KindsFromComplete(s, 0, k);
    }
  }

  /** A set has one ascending listing: two strictly sorted sequences with
      the same members are equal. */
  lemma {:induction false} StrictlySortedUnique(a: seq<SyntaxKind>, b: seq<SyntaxKind>)
    requires StrictlySorted(a) && StrictlySorted(b)
    requires forall k :: k in a <==> k in b
    ensures a == b
  {
    if a != [] {
      assert a[0] in b;
    }
    if b != [] {
      assert b[0] in a;
    }
    if a != [] && b != [] {
      assert b[0] in a && a[0] in b;
      OrdinalInjective(a[0], b[0]);
      forall k
        ensures k in a[1..] <==> k in b[1..]
      {
        if k in a[1..] {
          assert k in a && k != a[0];
        }
        if k in b[1..] {
          assert k in b && k != b[0];
        }
      }
      StrictlySortedUnique(a[1..], b[1..]);
      assert a == [a[0]] + a[1..] && b == [b[0]] + b[1..];
    }
  }

  /** `flat_map(to_strs)`: each kind's spellings, kind after kind. */
  function Spellings(ks: seq<SyntaxKind>, toStrs: SyntaxKind -> seq<string>): (r: seq<string>)
    ensures ks == [] ==> r == []
    ensures |ks| == 1 ==> r == toStrs(ks[0])
  {
    if ks == [] then [] else toStrs(ks[0]) + Spellings(ks[1..], toStrs)
  }

  // ---------------------------------------------------------------------
  // Joining with commas and a final "or"

  /** What the loop body of `comma_separate` writes for item `idx`. */
  function Piece(items: seq<string>, idx: nat): string
    requires idx < |items|
  {
    if idx == 0 then items[idx]
    else if idx == |items| - 1 then " or " + items[idx]
    else ", " + items[idx]
  }

  /** The text written after the first `k` iterations of the loop. */
  function Written(items: seq<string>, k: nat): string
    requires k <= |items|
  {
    if k == 0 then "" else Written(items, k - 1) + Piece(items, k - 1)
  }

  /** Plain joining with a separator. */
  function Join(xs: seq<string>, sep: string): string {
    if xs == [] then ""
    else if |xs| == 1 then xs[0]
    else Join(xs[..|xs| - 1], sep) + sep + xs[|xs| - 1]
  }

  /** The list in English without the serial comma: "a", "a or b",
      "a, b or c"; nothing for no items. */
  function OrList(items: seq<string>): string {
    if |items| <= 1 then Join(items, "")
    else Join(items[..|items| - 1], ", ") + " or " + items[|items| - 1]
  }

  /** `comma_separate`: the loop over `items`, as written. */
  function CommaSeparate(items: seq<string>): (r: string)
    ensures r == OrList(items)
    ensures items == [] ==> r == ""
    ensures |items| == 1 ==> r == items[0]
    ensures |items| == 2 ==> r == items[0] + " or " + items[1]
  {
    WrittenIsOrList(items);
    Written(items, |items|)
  }

  /** The whole loop writes the list with a final "or". */
  lemma WrittenIsOrList(items: seq<string>)
    ensures Written(items, |items|) == OrList(items)
  {
    var n := |items|;
    if n >= 2 {
      WrittenIsJoin(items, n - 1);
      assert Written(items, n) == Written(items, n - 1) + " or " + items[n - 1];
    } else if n == 1 {
      assert Written(items, 1) == Written(items, 0) + items[0];
    }
  }

  /** Before the last item, what the loop has written is a plain
      comma-separated list. */
  lemma {:induction false} WrittenIsJoin(items: seq<string>, k: nat)
    requires k < |items|
    ensures Written(items, k) == Join(items[..k], ", ")
  {
    if k > 1 {
      WrittenIsJoin(items, k - 1);
      assert items[..k][..k - 1] == items[..k - 1];
    }
  }

  // ---------------------------------------------------------------------
  // Display

  function Header(e: ParseError): string {
    "error at " + NatToString(e.start as nat) + ".." + NatToString(e.end as nat) + ": expected "
  }

  /** `impl Display for ParseError`: the range, the expected spellings in
      kind order joined with commas and a final "or", then what was found
      if anything was. */
  function Display(e: ParseError, toStrs: SyntaxKind -> seq<string>): (r: string)
    ensures e.found.None? ==> r == Header(e) + OrList(Spellings(Sorted(e.expected), toStrs))
    ensures e.found.Some? ==>
              r == Header(e) + OrList(Spellings(Sorted(e.expected), toStrs))
                   + " but found " + OrList(toStrs(e.found.value))
  {
    var head := Header(e) + CommaSeparate(Spellings(Sorted(e.expected), toStrs));
    match e.found
    case None => head
    case Some(found) => head + " but found " + CommaSeparate(toStrs(found))
  }

  /** The rendering always opens with the range. */
  lemma DisplayStartsWithRange(e: ParseError, toStrs: SyntaxKind -> seq<string>)
    ensures |Header(e)| <= |Display(e, toStrs)|
    ensures Display(e, toStrs)[..|Header(e)|] == Header(e)
  {
  }
}
