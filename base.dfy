/** Values shared by every part of the model: document ids, optional values,
    JavaScript string behaviour the handlers rely on, and handler outcomes. */
module Base {

  /** A document id. The store hands out ids from one increasing counter, as
      MongoDB ObjectIds grow with creation time. */
  type Id = nat

  datatype Option<T> = None | Some(value: T)

  /** A payload field that may be absent (`undefined`), which is not the same
      as a field that is present and null (`Present(None)`). */
  datatype Field<T> = Absent | Present(value: T)

  /** JavaScript truthiness of an optional string: undefined, null and "" are falsy. */
  predicate Truthy(s: Option<string>) {
    s.Some? && s.value != ""
  }

  /** The characters ECMAScript counts as white space or line terminators: the
      class `\s` of a regular expression and what `String.prototype.trim` removes. */
  predicate IsJsSpace(c: char) {
    var n := c as int;
    n == 0x09 || n == 0x0A || n == 0x0B || n == 0x0C || n == 0x0D || n == 0x20
    || n == 0xA0 || n == 0x1680 || (0x2000 <= n <= 0x200A) || n == 0x2028 || n == 0x2029
    || n == 0x202F || n == 0x205F || n == 0x3000 || n == 0xFEFF
  }

  /** Every character of `s` is white space (the empty string included). */
  predicate IsBlank(s: string) {
    forall i :: 0 <= i < |s| ==> IsJsSpace(s[i])
  }

  function TrimStart(s: string): (r: string)
    ensures |r| <= |s|
    ensures r == s[|s| - |r|..]
    ensures r != [] ==> !IsJsSpace(r[0])
    ensures forall i :: 0 <= i < |s| - |r| ==> IsJsSpace(s[i])
  {
    if s == [] || !IsJsSpace(s[0]) then s else TrimStart(s[1..])
  }

  function TrimEnd(s: string): (r: string)
    ensures |r| <= |s|
    ensures r == s[..|r|]
    ensures r != [] ==> !IsJsSpace(r[|r| - 1])
    ensures forall i :: |r| <= i < |s| ==> IsJsSpace(s[i])
  {
    if s == [] || !IsJsSpace(s[|s| - 1]) then s else TrimEnd(s[..|s| - 1])
  }

  /** `s.trim()`: leading white space removed (`TrimStart`), then trailing
      white space (`TrimEnd`). */
  function Trim(s: string): string {
    TrimEnd(TrimStart(s))
  }

  lemma BlankCons(s: string)
    requires s != []
    ensures IsBlank(s) <==> IsJsSpace(s[0]) && IsBlank(s[1..])
  {
    if IsJsSpace(s[0]) && IsBlank(s[1..]) {
      forall i | 0 <= i < |s| ensures IsJsSpace(s[i]) {
        if i > 0 { assert s[i] == s[1..][i - 1]; }
      }
    }
  }

  lemma BlankSnoc(s: string)
    requires s != []
    ensures IsBlank(s) <==> IsJsSpace(s[|s| - 1]) && IsBlank(s[..|s| - 1])
  {
    if IsJsSpace(s[|s| - 1]) && IsBlank(s[..|s| - 1]) {
      forall i | 0 <= i < |s| ensures IsJsSpace(s[i]) {
        if i < |s| - 1 { assert s[i] == s[..|s| - 1][i]; }
      }
    }
  }

  lemma {:induction false} TrimStartEmpty(s: string)
    ensures TrimStart(s) == [] <==> IsBlank(s)
  {
    if s != [] {
      BlankCons(s);
      if IsJsSpace(s[0]) {
        TrimStartEmpty(s[1..]);
      }
    }
  }

  lemma {:induction false} TrimEndEmpty(s: string)
    ensures TrimEnd(s) == [] <==> IsBlank(s)
  {
    if s != [] {
      BlankSnoc(s);
      if IsJsSpace(s[|s| - 1]) {
        TrimEndEmpty(s[..|s| - 1]);
      }
    }
  }

  /** `s.trim() === ''` holds exactly when `s` is blank. */
  lemma TrimEmptyIffBlank(s: string)
    ensures Trim(s) == [] <==> IsBlank(s)
  {
    var t := TrimStart(s);
    TrimStartEmpty(s);
    TrimEndEmpty(t);
    if t != [] {
      assert !IsJsSpace(t[0]);
      assert !IsBlank(t);
    }
  }

  predicate StartsWith(s: string, prefix: string) {
    |prefix| <= |s| && s[..|prefix|] == prefix
  }

  /** `s.includes(t)`. */
  predicate Contains(s: string, t: string) {
    exists i :: 0 <= i <= |s| && StartsWith(s[i..], t)
  }

  /** The ids listed in `s`, as a set. */
  function Elements(s: seq<Id>): set<Id> {
    set x: Id | x in s
  }

  predicate Distinct<T(==)>(s: seq<T>) {
    forall i, j :: 0 <= i < j < |s| ==> s[i] != s[j]
  }

  /** Two lists without repeats and without common ids join into one without repeats. */
  lemma DistinctConcat(a: seq<Id>, b: seq<Id>)
    requires Distinct(a) && Distinct(b) && Elements(a) !! Elements(b)
    ensures Distinct(a + b) && Elements(a + b) == Elements(a) + Elements(b)
  {
    forall i, j | 0 <= i < j < |a + b| ensures (a + b)[i] != (a + b)[j] {
      if i < |a| && j >= |a| {
        assert (a + b)[i] in Elements(a) && (a + b)[j] in Elements(b);
      }
    }
  }

  /** How a handler refuses a request: the HTTP status it answers with. */
  datatype Status = BadRequest | Unauthorized | Forbidden | NotFound

  function Code(s: Status): (c: nat)
    ensures 400 <= c < 500
  {
    match s
    case BadRequest => 400
    case Unauthorized => 401
    case Forbidden => 403
    case NotFound => 404
  }

  /** A handler either completes with a value or refuses with a status and the
      message the client sees. */
  datatype Outcome<T> = Done(value: T) | Rejected(status: Status, message: string)

  /** Removes every element equal to `x` (MongoDB `$pull`). */
  function Pull(s: seq<Id>, x: Id): (r: seq<Id>)
    ensures x !in r
    ensures forall y :: y in r <==> y in s && y != x
    ensures |r| <= |s|
    ensures forall y :: y != x ==> multiset(r)[y] == multiset(s)[y]
  {
    if s == [] then []
    else
      assert s == [s[0]] + s[1..];
      if s[0] == x then Pull(s[1..], x)
      else [s[0]] + Pull(s[1..], x)
  }

  /** `$pull` goes entry by entry: pulling from two lists joined is joining
      the two pulled lists, so the entries kept stay in their order. */
  lemma {:induction false} PullConcat(a: seq<Id>, b: seq<Id>, x: Id)
    ensures Pull(a + b, x) == Pull(a, x) + Pull(b, x)
  {
    if a != [] {
      assert (a + b)[1..] == a[1..] + b;
      PullConcat(a[1..], b, x);
    } else {
      assert a + b == b;
    }
  }
}
