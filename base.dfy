/**
 * Shared vocabulary of the backend model: optional values, results with the
 * error kinds the services raise, the user role, the JavaScript string
 * operations the code relies on (toLowerCase, trim, `contains` in insensitive
 * mode, join) and the sequence helpers behind `filter`, `find` and the
 * database's skip/take.
 */
module Base {

  datatype Option<+T> = None | Some(value: T) {
    /** The `x ?? default` of the source. */
    function GetOr(default: T): T {
      if Some? then value else default
    }
  }

  /** The two roles of the `Role` enumeration of the database schema. */
  datatype Role = Teacher | Student

  /**
   * What a call can fail with: the framework's HTTP exceptions, a plain
   * `Error`, and the database client's own failures.
   */
  datatype Error =
    | Unauthorized(message: string)
    | Forbidden(message: string)
    | NotFound(message: string)
    | Conflict(message: string)
    | Internal(message: string)          // a plain `throw new Error(message)`
    | RecordNotFound                     // an update or delete whose row does not exist
    | UniqueViolation(column: string)    // a unique constraint of the schema was violated
    | MissingField(column: string)       // a required column was given no value

  datatype Result<+T> = Success(value: T) | Failure(error: Error)

  // ---------------------------------------------------------------------
  // Characters and strings

  /** `\d` of a JavaScript regular expression: ASCII digits only. */
  predicate IsDigit(c: char) {
    '0' <= c <= '9'
  }

  /**
   * The characters `String.prototype.trim` removes: ECMAScript WhiteSpace
   * (tab, vertical tab, form feed, space, no-break space, byte order mark
   * and the Zs category) and LineTerminator.
   */
  predicate IsSpace(c: char) {
    || c == '\t' || c == '\n' || c == '\U{B}' || c == '\U{C}' || c == '\r'
    || c == ' ' || c == '\U{A0}' || c == '\U{1680}'
    || ('\U{2000}' <= c <= '\U{200A}')
    || c == '\U{2028}' || c == '\U{2029}' || c == '\U{202F}' || c == '\U{205F}'
    || c == '\U{3000}' || c == '\U{FEFF}'
  }

  predicate IsBlank(s: string) {
    forall i :: 0 <= i < |s| ==> IsSpace(s[i])
  }

  /** Lower-casing of one character, ASCII letters only. */
  function LowerChar(c: char): (r: char)
    ensures 'A' <= c <= 'Z' ==> r as int == c as int + 32
    ensures !('A' <= c <= 'Z') ==> r == c
    ensures !('A' <= r <= 'Z')
  {
    if 'A' <= c <= 'Z' then (c as int + 32) as char else c
  }

  /** `s.toLowerCase()`, restricted to ASCII letters. */
  function ToLower(s: string): (r: string)
    ensures |r| == |s|
    ensures forall i :: 0 <= i < |s| ==> r[i] == LowerChar(s[i])
  {
    if s == [] then [] else [LowerChar(s[0])] + ToLower(s[1..])
  }

  lemma ToLowerIdempotent(s: string)
    ensures ToLower(ToLower(s)) == ToLower(s)
  {
    assert forall i :: 0 <= i < |s| ==> LowerChar(LowerChar(s[i])) == LowerChar(s[i]);
  }

  /** Drops the leading whitespace. */
  function TrimStart(s: string): (r: string)
    ensures |r| <= |s| && r == s[|s| - |r|..]
    ensures IsBlank(s[..|s| - |r|])
    ensures r != [] ==> !IsSpace(r[0])
  {
    if s != [] && IsSpace(s[0]) then TrimStart(s[1..]) else s
  }

  /** Drops the trailing whitespace. */
  function TrimEnd(s: string): (r: string)
    ensures |r| <= |s| && r == s[..|r|]
    ensures IsBlank(s[|r|..])
    ensures r != [] ==> !IsSpace(r[|r| - 1])
  {
    if s != [] && IsSpace(s[|s| - 1]) then TrimEnd(s[..|s| - 1]) else s
  }

  /** `s.trim()`. */
  function Trim(s: string): string {
    TrimEnd(TrimStart(s))
  }

  /** `s.trim()` neither starts nor ends with whitespace. */
  lemma TrimEdges(s: string)
    ensures Trim(s) != [] ==> !IsSpace(Trim(s)[0]) && !IsSpace(Trim(s)[|Trim(s)| - 1])
  {
    var t := TrimStart(s);
    var u := TrimEnd(t);
    if u != [] {
      assert u[0] == t[0];
    }
  }

  /** An empty trimmed string is exactly an all-whitespace string. */
  lemma TrimEmptyIffBlank(s: string)
    ensures Trim(s) == [] <==> IsBlank(s)
  {
    var t := TrimStart(s);
    var m := |s| - |t|;
    assert s == s[..m] + t;
    if Trim(s) == [] {
      forall k | 0 <= k < |s| ensures IsSpace(s[k]) {
        assert s[..m][k] == s[k];
      }
    }
  }

  /** A string that neither starts nor ends with whitespace is its own trim. */
  lemma TrimUnchanged(s: string)
    requires s != [] && !IsSpace(s[0]) && !IsSpace(s[|s| - 1])
    ensures Trim(s) == s
  {
  }

  lemma TrimIdempotent(s: string)
    ensures Trim(Trim(s)) == Trim(s)
  {
    TrimEdges(s);
  }

  /** `haystack.includes(needle)`: `needle` occurs as a contiguous slice. */
  predicate Contains(haystack: string, needle: string) {
    exists i :: 0 <= i <= |haystack| && OccursAt(haystack, needle, i)
  }

  predicate OccursAt(haystack: string, needle: string, i: nat)
    requires i <= |haystack|
  {
    needle <= haystack[i..]
  }

  /**
   * The database's `contains` filter in insensitive mode: a case-insensitive
   * substring match, with the pattern taken literally.
   */
  predicate ContainsInsensitive(field: string, term: string) {
    Contains(ToLower(field), ToLower(term))
  }

  /** `xs.join(sep)`. */
  function Join(xs: seq<string>, sep: string): (r: string)
    ensures xs == [] ==> r == ""
    ensures |xs| == 1 ==> r == xs[0]
  {
    if xs == [] then ""
    else if |xs| == 1 then xs[0]
    else xs[0] + sep + Join(xs[1..], sep)
  }

  /**
   * `config.get(key, fallback)` of the configuration service: the configured
   * value, or `fallback` when the key is not set at all.
   */
  function ConfigGet(config: map<string, string>, key: string, fallback: string): (r: string)
    ensures key in config ==> r == config[key]
    ensures key !in config ==> r == fallback
  {
    if key in config then config[key] else fallback
  }

  /** `config.get(key)` without a fallback. */
  function ConfigLookup(config: map<string, string>, key: string): (r: Option<string>)
    ensures r.Some? <==> key in config
    ensures r.Some? ==> r.value == config[key]
  {
    if key in config then Some(config[key]) else None
  }

  /** `search?.trim()` used as a condition: the trimmed search, when it is present and not blank. */
  function SearchTerm(search: Option<string>): (r: Option<string>)
    ensures r.Some? ==> r.value != ""
  {
    if search.Some? && Trim(search.value) != "" then Some(Trim(search.value)) else None
  }

  /** The term is the search with its surrounding whitespace removed. */
  lemma SearchTermMeaning(search: Option<string>)
    ensures SearchTerm(search).None? <==> search.None? || IsBlank(search.value)
    ensures SearchTerm(search).Some? ==> SearchTerm(search).value == Trim(search.value)
  {
    if search.Some? {
      TrimEmptyIffBlank(search.value);
    }
  }

  /** JavaScript truthiness of an optional string: present and not empty. */
  predicate Truthy(s: Option<string>) {
    s.Some? && s.value != ""
  }

  // ---------------------------------------------------------------------
  // Sequences

  /** `s.filter(p)`: the elements satisfying `p`, in their original order. */
  function Filter<T>(s: seq<T>, p: T -> bool): (r: seq<T>)
    ensures |r| <= |s|
    ensures forall i :: 0 <= i < |r| ==> p(r[i])
  {
    if s == [] then []
    else if p(s[0]) then [s[0]] + Filter(s[1..], p)
    else Filter(s[1..], p)
  }

  lemma {:induction false} FilterMembership<T>(s: seq<T>, p: T -> bool, x: T)
    ensures x in Filter(s, p) <==> x in s && p(x)
  {
    if s != [] {
      FilterMembership(s[1..], p, x);
      assert s == [s[0]] + s[1..];
    }
  }

  lemma {:induction false} FilterAppend<T>(s: seq<T>, t: seq<T>, p: T -> bool)
    ensures Filter(s + t, p) == Filter(s, p) + Filter(t, p)
  {
    if s == [] {
      assert s + t == t;
    } else {
      assert (s + t)[1..] == s[1..] + t;
      FilterAppend(s[1..], t, p);
    }
  }

  /** A filter that keeps everything returns its input; one that keeps nothing returns []. */
  lemma {:induction false} FilterAllOrNone<T>(s: seq<T>, p: T -> bool)
    ensures (forall i :: 0 <= i < |s| ==> p(s[i])) ==> Filter(s, p) == s
    ensures (forall i :: 0 <= i < |s| ==> !p(s[i])) ==> Filter(s, p) == []
  {
    if s != [] {
      FilterAllOrNone(s[1..], p);
      assert forall i :: 0 <= i < |s[1..]| ==> s[1..][i] == s[i + 1];
    }
  }

  /** `s.find(p)`, or the first row a query returns: the first element satisfying `p`. */
  function FindFirst<T>(s: seq<T>, p: T -> bool): (r: Option<T>)
    ensures r.Some? ==> p(r.value)
  {
    if s == [] then None
    else if p(s[0]) then Some(s[0])
    else FindFirst(s[1..], p)
  }

  /** The index of the first element satisfying `p`, or |s| when there is none. */
  function FirstIndex<T>(s: seq<T>, p: T -> bool): (k: nat)
    ensures k <= |s|
    ensures forall j :: 0 <= j < k ==> !p(s[j])
    ensures k < |s| ==> p(s[k])
  {
    if s == [] then 0
    else if p(s[0]) then 0
    else 1 + FirstIndex(s[1..], p)
  }

  /** Row `i` of a window is row `skip + i` of the list it was cut from. */
  lemma PageIndexes<T>(s: seq<T>, skip: nat, take: nat)
    ensures forall i :: 0 <= i < |Page(s, skip, take)| ==> skip + i < |s| && Page(s, skip, take)[i] == s[skip + i]
  {
    var r := Page(s, skip, take);
    forall i | 0 <= i < |r|
      ensures skip + i < |s| && r[i] == s[skip + i]
    {
      assert i < Min(take, if skip <= |s| then |s| - skip else 0);
    }
  }

  /** Every row of a window is a row of the list it was cut from. */
  lemma PageWithin<T>(s: seq<T>, skip: nat, take: nat)
    ensures forall x :: x in Page(s, skip, take) ==> x in s
  {
    forall x | x in Page(s, skip, take)
      ensures x in s
    {
      var i :| 0 <= i < |Page(s, skip, take)| && Page(s, skip, take)[i] == x;
      assert x == s[skip + i];
    }
  }

  /** Two predicates that agree everywhere find the same element. */
  lemma {:induction false} FindFirstPointwise<T>(s: seq<T>, p: T -> bool, q: T -> bool)
    requires forall x :: p(x) == q(x)
    ensures FindFirst(s, p) == FindFirst(s, q)
  {
    if s != [] {
      FindFirstPointwise(s[1..], p, q);
    }
  }

  /** FindFirst returns the element at the first matching index, and nothing exactly when no element matches. */
  lemma {:induction false} FindFirstAt<T>(s: seq<T>, p: T -> bool)
    ensures FindFirst(s, p).Some? <==> FirstIndex(s, p) < |s|
    ensures FindFirst(s, p).Some? ==> FindFirst(s, p).value == s[FirstIndex(s, p)]
    ensures FindFirst(s, p).None? <==> forall i :: 0 <= i < |s| ==> !p(s[i])
  {
    if s != [] && !p(s[0]) {
      FindFirstAt(s[1..], p);
      assert forall i :: 0 <= i < |s[1..]| ==> s[1..][i] == s[i + 1];
    }
  }

  lemma {:induction false} FindFirstAppend<T>(s: seq<T>, t: seq<T>, p: T -> bool)
    ensures FindFirst(s + t, p) == if FindFirst(s, p).Some? then FindFirst(s, p) else FindFirst(t, p)
  {
    if s == [] {
      assert s + t == t;
    } else {
      assert (s + t)[1..] == s[1..] + t;
      FindFirstAppend(s[1..], t, p);
    }
  }

  function Min(a: int, b: int): int {
    if a <= b then a else b
  }

  /** The rows a query returns with `skip` and `take`: at most `take` of them, starting after the first `skip`. */
  function Page<T>(s: seq<T>, skip: nat, take: nat): (r: seq<T>)
    ensures |r| == Min(take, if skip <= |s| then |s| - skip else 0)
    ensures forall i :: 0 <= i < |r| ==> r[i] == s[skip + i]
  {
    var lo := Min(skip, |s|);
    s[lo..Min(lo + take, |s|)]
  }
}
