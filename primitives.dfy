/** Machine integer widths, failure-compatible wrappers and NEAR account identifiers,
    shared by the coordination contract and the indexing node. */
module Primitives {

  const U32_LIMIT: nat := 0x1_0000_0000
  const U64_LIMIT: nat := 0x1_0000_0000_0000_0000
  const U128_LIMIT: nat := 0x1_0000_0000_0000_0000_0000_0000_0000_0000

  type u8 = x: int | 0 <= x < 0x100
  type u32 = x: int | 0 <= x < 0x1_0000_0000
  type u64 = x: int | 0 <= x < 0x1_0000_0000_0000_0000
  type u128 = x: int | 0 <= x < 0x1_0000_0000_0000_0000_0000_0000_0000_0000

  datatype Option<+T> = None | Some(value: T)

  datatype Result<+T, +E> = Ok(value: T) | Err(error: E)

  /** The outcome of a call that returns nothing but may abort. */
  datatype Outcome<+E> = Pass | Fail(error: E)

  /** The set of the elements of a sequence (what collecting a `Vec` into a `HashSet` keeps). */
  function Elements<T>(s: seq<T>): set<T>
  {
    set x | x in s
  }

  lemma ElementsSnoc<T>(s: seq<T>, x: T)
    ensures Elements(s + [x]) == Elements(s) + {x}
  {
    assert forall y :: y in s + [x] <==> y in s || y == x;
  }

  // ---------------------------------------------------------------------------
  // NEAR account identifiers. `AccountId::from_str` accepts a string of 2 to 64
  // characters drawn from lower-case letters, digits and the separators '-', '_'
  // and '.', where a separator neither starts nor ends the identifier nor follows
  // another separator. Any other string fails to parse, and the `unwrap` on the
  // parse result aborts the caller.
  // ---------------------------------------------------------------------------

  predicate IsSeparator(c: char)
  {
    c == '-' || c == '_' || c == '.'
  }

  predicate IsAccountChar(c: char)
  {
    ('a' <= c <= 'z') || ('0' <= c <= '9') || IsSeparator(c)
  }

  predicate ValidAccountId(s: string)
  {
    && 2 <= |s| <= 64
    && (forall i :: 0 <= i < |s| ==> IsAccountChar(s[i]))
    && !IsSeparator(s[0])
    && !IsSeparator(s[|s| - 1])
    && (forall i :: 0 < i < |s| ==> !(IsSeparator(s[i - 1]) && IsSeparator(s[i])))
  }

  type AccountId = s: string | ValidAccountId(s) witness "aa"

  function ParseAccountId(s: string): (r: Option<AccountId>)
    ensures r.Some? <==> ValidAccountId(s)
    ensures r.Some? ==> r.value == s
  {
    if ValidAccountId(s) then Some(s) else None
  }
}
