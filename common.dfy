/** Shared vocabulary of the model: failures, the parts of java.lang.String the
    services rely on, Spring Data page requests, and small sequence helpers
    (lookup by id, filtering, a stable insertion sort driven by a comparator). */
module Common {

  datatype Option<+T> = None | Some(value: T)

  /** The exceptions the core raises or lets escape, one constructor per class. */
  datatype Error =
    | NotFound(message: string)           // NotFoundException
    | ShareItValidation(message: string)  // ShareItValidationException
    | Validation(message: string)         // ValidationException
    | AlreadyExisted(message: string)     // AlreadyExistedException
    | Argument(message: string)           // ArgumentException
    | DataIntegrityViolation              // a constraint of the relational store refused a write
    | Arithmetic                          // ArithmeticException: integer division by zero
    | IllegalArgument                     // PageRequest.of refused its page index or size
    | NoSuchElement                       // Optional.get on an empty Optional
    | NullPointer                         // a member access on a missing map entry

  datatype Result<+T> = Ok(value: T) | Err(error: Error)

  // ---------------------------------------------------------------------------
  // java.lang.String

  /** Character.isWhitespace: the ASCII controls HT..CR and FS..US, and the Unicode
      space, line and paragraph separators other than the no-break spaces. */
  predicate IsWhitespace(c: char)
  {
    || c == ' '
    || ('\t' <= c <= '\r')
    || ('\U{1C}' <= c <= '\U{1F}')
    || c == '\U{1680}'
    || ('\U{2000}' <= c <= '\U{2006}')
    || ('\U{2008}' <= c <= '\U{200A}')
    || c == '\U{2028}' || c == '\U{2029}' || c == '\U{205F}' || c == '\U{3000}'
  }

  /** String.isBlank: empty or only whitespace. */
  predicate IsBlank(s: string)
  {
    forall i :: 0 <= i < |s| ==> IsWhitespace(s[i])
  }

  /** Text given (not null) and not blank. */
  predicate Given(s: Option<string>)
  {
    s.Some? && !IsBlank(s.value)
  }

  /** The leading half of String.trim: drops every leading character at or below U+0020. */
  function TrimLeading(s: string): (r: string)
    ensures |r| <= |s| && r == s[|s| - |r|..]
    ensures r != [] ==> r[0] > ' '
    ensures forall i :: 0 <= i < |s| - |r| ==> s[i] <= ' '
  {
    if s != [] && s[0] <= ' ' then TrimLeading(s[1..]) else s
  }

  /** The trailing half of String.trim. */
  function TrimTrailing(s: string): (r: string)
    ensures |r| <= |s| && r == s[..|r|]
    ensures r != [] ==> r[|r| - 1] > ' '
    ensures forall i :: |r| <= i < |s| ==> s[i] <= ' '
  {
    if s != [] && s[|s| - 1] <= ' ' then TrimTrailing(s[..|s| - 1]) else s
  }

  /** String.trim. */
  function Trim(s: string): string
  {
    TrimTrailing(TrimLeading(s))
  }

  /** String.toUpperCase on one character, for the characters whose upper case is
      ASCII: the ASCII letters, dotless i, long s, sharp s and the Latin ligatures.
      Every other character is kept as it is: Java keeps the other ASCII characters
      too, and maps each other character outside ASCII to text that still holds a
      character outside ASCII. */
  function UpperOf(c: char): string
  {
    if 'a' <= c <= 'z' then [(c as int - 32) as char]
    else if c == '\U{131}' then "I"
    else if c == '\U{17F}' then "S"
    else if c == '\U{DF}' then "SS"
    else if c == '\U{FB00}' then "FF"
    else if c == '\U{FB01}' then "FI"
    else if c == '\U{FB02}' then "FL"
    else if c == '\U{FB03}' then "FFI"
    else if c == '\U{FB04}' then "FFL"
    else if c == '\U{FB05}' || c == '\U{FB06}' then "ST"
    else [c]
  }

  /** Character.toLowerCase restricted to ASCII letters. */
  function LowerChar(c: char): char
  {
    if 'A' <= c <= 'Z' then (c as int + 32) as char else c
  }

  /** String.toUpperCase (root locale). */
  function UpperCase(s: string): string
  {
    if s == [] then [] else UpperOf(s[0]) + UpperCase(s[1..])
  }

  function LowerCase(s: string): string
  {
    seq(|s|, i requires 0 <= i < |s| => LowerChar(s[i]))
  }

  lemma {:induction false} UpperCaseAppend(a: string, b: string)
    ensures UpperCase(a + b) == UpperCase(a) + UpperCase(b)
  {
    if a != [] {
      assert (a + b)[0] == a[0];
      assert (a + b)[1..] == a[1..] + b;
      UpperCaseAppend(a[1..], b);
      calc {
        UpperCase(a + b);
        UpperOf(a[0]) + UpperCase(a[1..] + b);
        UpperOf(a[0]) + (UpperCase(a[1..]) + UpperCase(b));
        (UpperOf(a[0]) + UpperCase(a[1..])) + UpperCase(b);
      }
    } else {
      assert a + b == b;
    }
  }

  /** The characters upper-casing leaves alone. */
  predicate Caseless(c: char)
  {
    !('a' <= c <= 'z') && c != '\U{131}' && c != '\U{17F}' && c != '\U{DF}' && !('\U{FB00}' <= c <= '\U{FB06}')
  }

  lemma UpperOfCaseless(c: char)
    requires Caseless(c)
    ensures UpperOf(c) == [c]
  {
  }

  /** Text made of caseless characters, such as whitespace and capitals, is its own upper case. */
  lemma {:induction false} UpperCaseKeeps(s: string)
    requires forall i :: 0 <= i < |s| ==> Caseless(s[i])
    ensures UpperCase(s) == s
  {
    if s != [] {
      UpperOfCaseless(s[0]);
      UpperCaseKeeps(s[1..]);
    }
  }

  /** trim removes exactly the padding around text that starts and ends above U+0020. */
  lemma TrimPadded(pre: string, t: string, post: string)
    requires forall i :: 0 <= i < |pre| ==> pre[i] <= ' '
    requires forall i :: 0 <= i < |post| ==> post[i] <= ' '
    requires t != [] && t[0] > ' ' && t[|t| - 1] > ' '
    ensures Trim(pre + t + post) == t
  {
    var lead := TrimLeading(pre + t + post);
    var k := |pre + t + post| - |lead|;
    assert (pre + t + post)[|pre|] == t[0];
    assert k <= |pre|;
    assert k == |pre|;
    assert lead == t + post;
    var trail := TrimTrailing(t + post);
    assert (t + post)[|t| - 1] == t[|t| - 1];
    assert |trail| >= |t|;
    assert |trail| == |t|;
  }

  /** String.contains. */
  predicate Contains(s: string, part: string)
  {
    exists i :: 0 <= i <= |s| - |part| && OccursAt(s, part, i)
  }

  predicate OccursAt(s: string, part: string, i: int)
    requires 0 <= i <= |s| - |part|
  {
    s[i..i + |part|] == part
  }

  /** The decimal text of a number, as String.format prints a long with %d or %s. */
  function DecimalString(n: int): string
  {
    if n < 0 then "-" + Digits(-n) else Digits(n)
  }

  function Digits(n: nat): string
  {
    if n < 10 then [DigitChar(n)] else Digits(n / 10) + [DigitChar(n % 10)]
  }

  function DigitChar(d: nat): char
    requires d < 10
  {
    ('0' as int + d) as char
  }

  /** String.format("%s", x) of a reference that may be null. */
  function NullableText(s: Option<string>): string
  {
    if s.Some? then s.value else "null"
  }

  // ---------------------------------------------------------------------------
  // Spring Data pages

  /** Java's `/` on int by a positive divisor: the quotient truncated toward zero.
      (Only page sizes reach it; a negative size is refused by PageRequest with the
      same IllegalArgumentException whatever the quotient is.) */
  function JavaDiv(a: int, b: int): (q: int)
    requires b > 0
    ensures a >= 0 ==> q == a / b && q >= 0
    ensures -b < a < 0 ==> q == 0
    ensures a <= -b ==> q < 0
  {
    if a >= 0 then
      DivBounds(a, b);
      a / b
    else
      DivBounds(-a, b);
      -((-a) / b)
  }

  /** A positive multiple of a positive number is at least that number. */
  lemma {:induction false} MulBounds(b: int, q: int)
    requires b > 0
    ensures q >= 1 ==> b * q >= b
    ensures q <= 0 ==> b * q <= 0
    decreases if q < 0 then -q else q
  {
    if q > 1 {
      MulBounds(b, q - 1);
      assert b * q == b * (q - 1) + b;
    } else if q < 0 {
      MulBounds(b, q + 1);
      assert b * q == b * (q + 1) - b;
    }
  }

  lemma MulNonNegative(a: nat, b: nat)
    ensures a * b >= 0
  {
    if b > 0 {
      MulBounds(b, a);
    }
  }

  /** Euclidean division of a natural number by a positive one: never negative, and
      at least one once the dividend reaches the divisor. */
  lemma DivBounds(a: int, b: int)
    requires a >= 0 && b > 0
    ensures a / b >= 0
    ensures a >= b ==> a / b >= 1
  {
    MulBounds(b, a / b);
  }

  /** A page request: page index and page length. */
  datatype Pageable = Pageable(page: nat, size: nat)

  /** `PageRequest.of(from / size, size)`: the division throws on a zero size, and
      PageRequest refuses a negative page index or a size below one. */
  function PageRequestOf(from: int, size: int): (r: Result<Pageable>)
    ensures size == 0 ==> r == Err(Arithmetic)
    ensures r.Ok? <==> size >= 1 && from > -size
    ensures r.Ok? ==> r.value.size == size && r.value.page == (if from < 0 then 0 else from / size)
  {
    if size == 0 then Err(Arithmetic)
    else if size < 1 then Err(IllegalArgument)
    else
      var page := JavaDiv(from, size);
      if page < 0 then Err(IllegalArgument) else Ok(Pageable(page, size))
  }

  /** The offset of a page's first row: page * size. */
  function Offset(p: Pageable): nat
  {
    MulNonNegative(p.page, p.size);
    p.page * p.size
  }

  /** The rows a page request selects from a query result: `size` rows from offset
      `page * size`, fewer at the end, none past the end. */
  function ApplyPage<T(==)>(s: seq<T>, p: Pageable): (r: seq<T>)
    ensures |r| <= p.size
    ensures multiset(r) <= multiset(s)
    ensures forall k :: 0 <= k < |r| ==> r[k] in s
    ensures Offset(p) <= |s| ==> |r| == Min(p.size, |s| - Offset(p))
    ensures forall k :: 0 <= k < |r| ==> Offset(p) + k < |s| && r[k] == s[Offset(p) + k]
  {
    Window(s, Offset(p), p.size)
  }

  /** At most n rows from offset lo. */
  function Window<T(==)>(s: seq<T>, lo: nat, n: nat): (r: seq<T>)
    ensures |r| <= n
    ensures multiset(r) <= multiset(s)
    ensures forall k :: 0 <= k < |r| ==> r[k] in s
    ensures lo <= |s| ==> |r| == Min(n, |s| - lo)
    ensures forall k :: 0 <= k < |r| ==> lo + k < |s| && r[k] == s[lo + k]
  {
    if lo >= |s| then []
    else
      var hi := Min(lo + n, |s|);
      MultisetOfSlice(s, lo, hi);
      s[lo..hi]
  }

  function Min(a: int, b: int): int
  {
    if a <= b then a else b
  }

  /** A page of a key-sorted sequence is key-sorted. */
  lemma PageOfSorted<T>(s: seq<T>, key: T -> int, p: Pageable)
    requires SortedBy(s, key)
    ensures SortedBy(ApplyPage(s, p), key)
  {
    var r := ApplyPage(s, p);
    forall i, j | 0 <= i < j < |r| ensures key(r[i]) <= key(r[j]) {
      assert r[i] == s[Offset(p) + i] && r[j] == s[Offset(p) + j];
    }
  }

  lemma MultisetOfSlice<T>(s: seq<T>, lo: int, hi: int)
    requires 0 <= lo <= hi <= |s|
    ensures multiset(s[lo..hi]) <= multiset(s)
  {
    assert s == s[..lo] + s[lo..hi] + s[hi..];
  }

  /** The page index `from / size` never skips past `from`: the first row of the page
      is at an offset at most `from`, and the page still reaches row `from`. */
  lemma {:induction false} PageOffsetRoundsDown(from: int, size: int)
    requires PageRequestOf(from, size).Ok? && from >= 0
    ensures var p := PageRequestOf(from, size).value;
      Offset(p) <= from < Offset(p) + p.size
  {
    var p := PageRequestOf(from, size).value;
    assert p.page == from / size;
    assert from == (from / size) * size + from % size;
  }

  /** Pages of one length cover a query result: row i is on page i / size, at
      position i % size. */
  lemma PageHoldsRow<T>(s: seq<T>, size: nat, i: nat) returns (n: nat, k: nat)
    requires size >= 1 && i < |s|
    ensures n == i / size && k == i % size
    ensures k < |ApplyPage(s, Pageable(n, size))| && ApplyPage(s, Pageable(n, size))[k] == s[i]
  {
    n, k := i / size, i % size;
    assert i == n * size + k;
    assert Offset(Pageable(n, size)) + k == i;
  }

  /** s holds exactly the elements of m, each as often as m does, by ascending key. */
  ghost predicate OrderingOf<T>(s: seq<T>, m: seq<T>, key: T -> int)
  {
    multiset(s) == multiset(m) && SortedBy(s, key)
  }

  // ---------------------------------------------------------------------------
  // Sequences of records

  /** The ids of the records in a table. */
  function Ids<T(==)>(s: seq<T>, key: T -> int): set<int>
  {
    set x | x in s :: key(x)
  }

  /** The ids strictly increase along the table (insertion order under an identity column). */
  predicate IncreasingIds<T(==)>(s: seq<T>, key: T -> int)
  {
    forall i, j :: 0 <= i < j < |s| ==> key(s[i]) < key(s[j])
  }

  /** findById: the first record with the given id. */
  function Find<T(==)>(s: seq<T>, key: T -> int, id: int): (r: Option<T>)
    ensures r.Some? <==> id in Ids(s, key)
    ensures r.Some? ==> r.value in s && key(r.value) == id
  {
    if s == [] then None
    else if key(s[0]) == id then Some(s[0])
    else
      IdsOfCons(s, key);
      Find(s[1..], key, id)
  }

  /** The position of the record with the given id, or -1. */
  function IndexOf<T(==)>(s: seq<T>, key: T -> int, id: int): (r: int)
    ensures -1 <= r < |s|
    ensures r >= 0 ==> key(s[r]) == id
    ensures r < 0 <==> id !in Ids(s, key)
  {
    if s == [] then -1
    else if key(s[0]) == id then 0
    else
      IdsOfCons(s, key);
      var k := IndexOf(s[1..], key, id);
      if k < 0 then -1 else k + 1
  }

  lemma IdsOfCons<T>(s: seq<T>, key: T -> int)
    requires s != []
    ensures Ids(s, key) == {key(s[0])} + Ids(s[1..], key)
  {
    assert s == [s[0]] + s[1..];
    forall x | x in s ensures x == s[0] || x in s[1..] {
    }
  }

  lemma IdsOfAppend<T>(s: seq<T>, x: T, key: T -> int)
    ensures Ids(s + [x], key) == Ids(s, key) + {key(x)}
  {
    forall y | y in s + [x] ensures y in s || y == x {
    }
  }

  /** Replacing a record by one with the same id keeps the set of ids. */
  lemma IdsOfReplace<T>(s: seq<T>, i: int, x: T, key: T -> int)
    requires 0 <= i < |s| && key(x) == key(s[i])
    ensures Ids(s[i := x], key) == Ids(s, key)
  {
    forall y | y in s[i := x] ensures key(y) in Ids(s, key) {
      var k :| 0 <= k < |s| && s[i := x][k] == y;
    }
    forall y | y in s ensures key(y) in Ids(s[i := x], key) {
      var k :| 0 <= k < |s| && s[k] == y;
      if k == i {
        assert s[i := x][i] == x;
      } else {
        assert s[i := x][k] == y;
      }
    }
  }

  /** The positions of a sequence with one record cut out. */
  lemma RemoveAtIndex<T>(s: seq<T>, i: int, t: seq<T>)
    requires 0 <= i < |s| && t == s[..i] + s[i + 1..]
    ensures |t| == |s| - 1
    ensures forall k :: 0 <= k < i ==> t[k] == s[k]
    ensures forall k :: i <= k < |t| ==> t[k] == s[k + 1]
  {
  }

  /** Removing the record at position i removes exactly its id when ids are unique. */
  lemma IdsOfRemove<T>(s: seq<T>, i: int, key: T -> int)
    requires 0 <= i < |s| && IncreasingIds(s, key)
    ensures Ids(s[..i] + s[i + 1..], key) == Ids(s, key) - {key(s[i])}
    ensures IncreasingIds(s[..i] + s[i + 1..], key)
  {
    var t := s[..i] + s[i + 1..];
    RemoveAtIndex(s, i, t);
    RemovedIdsBelow(s, i, t, key);
    RemovedIdsAbove(s, i, t, key);
    RemoveKeepsIncreasing(s, i, t, key);
  }

  lemma RemovedIdsBelow<T>(s: seq<T>, i: int, t: seq<T>, key: T -> int)
    requires 0 <= i < |s| && IncreasingIds(s, key) && t == s[..i] + s[i + 1..]
    ensures Ids(t, key) <= Ids(s, key) - {key(s[i])}
  {
    RemoveAtIndex(s, i, t);
    forall y | y in t ensures key(y) in Ids(s, key) - {key(s[i])} {
      var k :| 0 <= k < |t| && t[k] == y;
      var k' := if k < i then k else k + 1;
      assert s[k'] == y;
    }
  }

  lemma RemovedIdsAbove<T>(s: seq<T>, i: int, t: seq<T>, key: T -> int)
    requires 0 <= i < |s| && t == s[..i] + s[i + 1..]
    ensures Ids(s, key) - {key(s[i])} <= Ids(t, key)
  {
    RemoveAtIndex(s, i, t);
    forall y | y in s && key(y) != key(s[i]) ensures key(y) in Ids(t, key) {
      var k :| 0 <= k < |s| && s[k] == y;
      var k' := if k < i then k else k - 1;
      assert t[k'] == y;
    }
  }

  lemma RemoveKeepsIncreasing<T>(s: seq<T>, i: int, t: seq<T>, key: T -> int)
    requires 0 <= i < |s| && IncreasingIds(s, key) && t == s[..i] + s[i + 1..]
    ensures IncreasingIds(t, key)
  {
    RemoveAtIndex(s, i, t);
    forall a, b | 0 <= a < b < |t| ensures key(t[a]) < key(t[b]) {
      var a', b' := if a < i then a else a + 1, if b < i then b else b + 1;
      assert t[a] == s[a'] && t[b] == s[b'];
    }
  }

  /** With increasing ids, the record found for an id is the one at its position. */
  lemma FindAt<T>(s: seq<T>, key: T -> int, i: int)
    requires IncreasingIds(s, key) && 0 <= i < |s|
    ensures Find(s, key, key(s[i])) == Some(s[i])
    ensures IndexOf(s, key, key(s[i])) == i
  {
    if i > 0 {
      assert key(s[0]) < key(s[i]);
      assert s[1..][i - 1] == s[i];
      FindAt(s[1..], key, i - 1);
    }
  }

  /** Keep the records that satisfy p, in their order. */
  function Filter<T(==)>(s: seq<T>, p: T -> bool): (r: seq<T>)
    ensures |r| <= |s|
    ensures forall i :: 0 <= i < |r| ==> r[i] in s && p(r[i])
    ensures forall i :: 0 <= i < |s| && p(s[i]) ==> s[i] in r
    ensures multiset(r) <= multiset(s)
  {
    if s == [] then []
    else
      assert s == [s[0]] + s[1..];
      (if p(s[0]) then [s[0]] else []) + Filter(s[1..], p)
  }

  /** A record is kept by Filter exactly when it is present and satisfies p. */
  lemma FilterHas<T>(s: seq<T>, p: T -> bool, x: T)
    ensures x in Filter(s, p) <==> x in s && p(x)
  {
    var r := Filter(s, p);
    if x in s && p(x) {
      var i :| 0 <= i < |s| && s[i] == x;
    }
    if x in r {
      var i :| 0 <= i < |r| && r[i] == x;
    }
  }

  /** Filter only looks at the predicate on the records present. */
  lemma {:induction false} FilterCongruent<T>(s: seq<T>, p: T -> bool, q: T -> bool)
    requires forall x :: x in s ==> p(x) == q(x)
    ensures Filter(s, p) == Filter(s, q)
  {
    if s != [] {
      assert s[0] in s;
      assert forall x :: x in s[1..] ==> x in s;
      FilterCongruent(s[1..], p, q);
    }
  }

  /** Insert x before the first element it does not compare greater than. */
  function InsertWith<T(==)>(x: T, s: seq<T>, cmp: (T, T) -> int): (r: seq<T>)
    ensures multiset(r) == multiset(s) + multiset{x}
    ensures |r| == |s| + 1
  {
    if s == [] then [x]
    else if cmp(x, s[0]) <= 0 then [x] + s
    else
      assert s == [s[0]] + s[1..];
      [s[0]] + InsertWith(x, s[1..], cmp)
  }

  /** A stable insertion sort under a comparator, as List.sort and Stream.sorted use. */
  function SortWith<T(==)>(s: seq<T>, cmp: (T, T) -> int): (r: seq<T>)
    ensures multiset(r) == multiset(s)
    ensures |r| == |s|
  {
    if s == [] then []
    else
      assert s == [s[0]] + s[1..];
      InsertWith(s[0], SortWith(s[1..], cmp), cmp)
  }

  /** cmp orders by ascending key: a comes first or ties exactly when key(a) <= key(b). */
  ghost predicate ComparesBy<T(!new)>(cmp: (T, T) -> int, key: T -> int)
  {
    forall a, b :: cmp(a, b) <= 0 <==> key(a) <= key(b)
  }

  predicate SortedBy<T(==)>(s: seq<T>, key: T -> int)
  {
    forall i, j :: 0 <= i < j < |s| ==> key(s[i]) <= key(s[j])
  }

  lemma {:induction false} InsertWithSorted<T(!new)>(x: T, s: seq<T>, cmp: (T, T) -> int, key: T -> int)
    requires ComparesBy(cmp, key) && SortedBy(s, key)
    ensures SortedBy(InsertWith(x, s, cmp), key)
  {
    if s != [] && cmp(x, s[0]) > 0 {
      InsertWithSorted(x, s[1..], cmp, key);
      var t := InsertWith(x, s[1..], cmp);
      InsertWithBelow(x, s[1..], cmp, key(s[0]), key);
      assert InsertWith(x, s, cmp) == [s[0]] + t;
    }
  }

  /** A lower bound of x and of every element of s bounds everything InsertWith returns. */
  lemma {:induction false} InsertWithBelow<T>(x: T, s: seq<T>, cmp: (T, T) -> int, lo: int, key: T -> int)
    requires lo <= key(x) && forall k :: 0 <= k < |s| ==> lo <= key(s[k])
    ensures forall k :: 0 <= k < |InsertWith(x, s, cmp)| ==> lo <= key(InsertWith(x, s, cmp)[k])
  {
    if s != [] && cmp(x, s[0]) > 0 {
      InsertWithBelow(x, s[1..], cmp, lo, key);
    }
  }

  /** Sorting with a comparator that orders by a key sorts by that key. */
  lemma {:induction false} SortWithSorted<T(!new)>(s: seq<T>, cmp: (T, T) -> int, key: T -> int)
    requires ComparesBy(cmp, key)
    ensures SortedBy(SortWith(s, cmp), key)
  {
    if s != [] {
      SortWithSorted(s[1..], cmp, key);
      InsertWithSorted(s[0], SortWith(s[1..], cmp), cmp, key);
    }
  }

  /** In a sorted sequence the head's key bounds every later key. */
  lemma SortedHeadBelow<T>(s: seq<T>, key: T -> int)
    requires SortedBy(s, key) && s != []
    ensures forall x :: x in s[1..] ==> key(s[0]) <= key(x)
  {
    forall x | x in s[1..] ensures key(s[0]) <= key(x) {
      var j :| 0 <= j < |s[1..]| && s[1..][j] == x;
      assert s[j + 1] == x;
    }
  }

  /** A key no greater than every key of a sorted sequence may go in front of it. */
  lemma ConsSorted<T>(x: T, t: seq<T>, key: T -> int)
    requires SortedBy(t, key) && forall k :: 0 <= k < |t| ==> key(x) <= key(t[k])
    ensures SortedBy([x] + t, key)
  {
    var r := [x] + t;
    forall i, j | 0 <= i < j < |r| ensures key(r[i]) <= key(r[j]) {
      assert r[j] == t[j - 1];
      if i > 0 {
        assert r[i] == t[i - 1];
      }
    }
  }

  /** Filtering keeps a sequence sorted. */
  lemma {:induction false} FilterSorted<T>(s: seq<T>, p: T -> bool, key: T -> int)
    requires SortedBy(s, key)
    ensures SortedBy(Filter(s, p), key)
  {
    if s != [] {
      FilterSorted(s[1..], p, key);
      var t := Filter(s[1..], p);
      if p(s[0]) {
        SortedHeadBelow(s, key);
        ConsSorted(s[0], t, key);
      }
      assert Filter(s, p) == (if p(s[0]) then [s[0]] else []) + t;
    }
  }

  /** With increasing ids the head's id is below every later id. */
  lemma IncreasingHeadBelow<T>(s: seq<T>, key: T -> int)
    requires IncreasingIds(s, key) && s != []
    ensures forall x :: x in s[1..] ==> key(s[0]) < key(x)
  {
    forall x | x in s[1..] ensures key(s[0]) < key(x) {
      var j :| 0 <= j < |s[1..]| && s[1..][j] == x;
      assert s[j + 1] == x;
    }
  }

  /** An id below every id of a sequence with increasing ids may go in front of it. */
  lemma ConsIncreasing<T>(x: T, t: seq<T>, key: T -> int)
    requires IncreasingIds(t, key) && forall k :: 0 <= k < |t| ==> key(x) < key(t[k])
    ensures IncreasingIds([x] + t, key)
  {
    var r := [x] + t;
    forall i, j | 0 <= i < j < |r| ensures key(r[i]) < key(r[j]) {
      assert r[j] == t[j - 1];
      if i > 0 {
        assert r[i] == t[i - 1];
      }
    }
  }

  /** Filtering keeps the ids increasing. */
  lemma {:induction false} FilterIncreasing<T>(s: seq<T>, p: T -> bool, key: T -> int)
    requires IncreasingIds(s, key)
    ensures IncreasingIds(Filter(s, p), key)
  {
    if s != [] {
      FilterIncreasing(s[1..], p, key);
      var t := Filter(s[1..], p);
      if p(s[0]) {
        IncreasingHeadBelow(s, key);
        ConsIncreasing(s[0], t, key);
      }
      assert Filter(s, p) == (if p(s[0]) then [s[0]] else []) + t;
    }
  }

  /** A page of a table with increasing ids has increasing ids. */
  lemma PageIncreasing<T>(s: seq<T>, key: T -> int, p: Pageable)
    requires IncreasingIds(s, key)
    ensures IncreasingIds(ApplyPage(s, p), key)
  {
    var r := ApplyPage(s, p);
    forall i, j | 0 <= i < j < |r| ensures key(r[i]) < key(r[j]) {
      assert r[i] == s[Offset(p) + i] && r[j] == s[Offset(p) + j];
    }
  }

  /** Sorting keeps exactly the elements it was given. */
  lemma SortWithMembers<T>(s: seq<T>, cmp: (T, T) -> int)
    ensures forall x :: x in SortWith(s, cmp) <==> x in s
  {
    var r := SortWith(s, cmp);
    assert forall x :: x in r <==> x in multiset(r);
    assert forall x :: x in s <==> x in multiset(s);
  }

  /** The head of a key-sorted sequence has the least key. */
  lemma SortedHeadLeast<T>(s: seq<T>, key: T -> int)
    requires SortedBy(s, key) && s != []
    ensures forall x :: x in s ==> key(s[0]) <= key(x)
  {
    forall x | x in s ensures key(s[0]) <= key(x) {
      var j :| 0 <= j < |s| && s[j] == x;
    }
  }

  /** In a key-sorted sequence the first element satisfying p has the least key among those. */
  lemma FirstIsLeast<T>(s: seq<T>, key: T -> int, i: int, y: T)
    requires SortedBy(s, key) && 0 <= i < |s| && y in s
    requires forall k :: 0 <= k < i ==> s[k] != y
    ensures key(s[i]) <= key(y)
  {
    var k :| 0 <= k < |s| && s[k] == y;
  }
}
