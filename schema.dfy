/**
 * Schema detection by column name: reason-code columns are those whose lower-cased
 * name contains "reason"; protected attributes are the columns named exactly SEX,
 * AGE_GROUP or EDUCATION. Both keep the table's column order.
 */
module Schema {

  /** Lower-cases an ASCII upper-case letter and leaves every other character as it is. */
  function LowerChar(c: char): char
  {
    if 'A' <= c <= 'Z' then (c as int - 'A' as int + 'a' as int) as char else c
  }

  function Lower(s: string): string
  {
    seq(|s|, i requires 0 <= i < |s| => LowerChar(s[i]))
  }

  /** `sub` occurs in `s` starting at index `i`. */
  predicate OccursAt(s: string, sub: string, i: int)
  {
    0 <= i <= |s| - |sub| && s[i..i + |sub|] == sub
  }

  /** Python's `sub in s` on strings: `sub` is a prefix of some suffix of `s`. */
  function Contains(s: string, sub: string): bool
  {
    if sub <= s then true
    else if s == [] then false
    else Contains(s[1..], sub)
  }

  /** Contains holds exactly when `sub` occurs at some position of `s`. */
  lemma {:induction false} ContainsIffOccurs(s: string, sub: string)
    ensures Contains(s, sub) <==> exists i :: OccursAt(s, sub, i)
  {
    if sub <= s {
      assert OccursAt(s, sub, 0);
    } else if s != [] {
      ContainsIffOccurs(s[1..], sub);
      if j :| OccursAt(s[1..], sub, j) {
        assert OccursAt(s, sub, j + 1);
      }
      if i :| OccursAt(s, sub, i) {
        assert i != 0;
        assert OccursAt(s[1..], sub, i - 1);
      }
    }
  }

  predicate IsReasonColumn(c: string)
  {
    Contains(Lower(c), "reason")
  }

  predicate IsProtectedAttribute(c: string)
  {
    c in ["SEX", "AGE_GROUP", "EDUCATION"]
  }

  /** `r` can be obtained from `s` by deleting elements, keeping the rest in order. */
  predicate IsSubsequence(r: seq<string>, s: seq<string>)
  {
    r == [] || (s != [] && ((r[0] == s[0] && IsSubsequence(r[1..], s[1..])) || IsSubsequence(r, s[1..])))
  }

  /**
   * The names in `s` that satisfy `keep`, in order: a subsequence of `s` that
   * holds every kept element as often as `s` does and nothing else.
   */
  function Filter(s: seq<string>, keep: string -> bool): (r: seq<string>)
    ensures IsSubsequence(r, s)
    ensures forall x :: x in r <==> x in s && keep(x)
    ensures forall x :: keep(x) ==> multiset(r)[x] == multiset(s)[x]
  {
    if s == [] then []
    else
      var rest := Filter(s[1..], keep);
      assert s == [s[0]] + s[1..];
      if keep(s[0]) then [s[0]] + rest else rest
  }

  /** The reason-code columns, in column order. */
  function ReasonColumns(columns: seq<string>): (rc: seq<string>)
    ensures IsSubsequence(rc, columns)
    ensures forall c :: c in rc <==> c in columns && Contains(Lower(c), "reason")
    ensures forall c :: IsReasonColumn(c) ==> multiset(rc)[c] == multiset(columns)[c]
  {
    Filter(columns, IsReasonColumn)
  }

  /** The protected-attribute columns, in column order. */
  function ProtectedAttributes(columns: seq<string>): (pa: seq<string>)
    ensures IsSubsequence(pa, columns)
    ensures forall c :: c in pa <==> c in columns && (c == "SEX" || c == "AGE_GROUP" || c == "EDUCATION")
    ensures forall c :: IsProtectedAttribute(c) ==> multiset(pa)[c] == multiset(columns)[c]
  {
    Filter(columns, IsProtectedAttribute)
  }

  /** The test ignores case and finds "reason" anywhere in the name. */
  lemma ReasonDetectionExamples()
    ensures IsReasonColumn("top_REASON_1")
    ensures IsReasonColumn("Reason")
  {
    assert Lower("top_REASON_1") == "top_reason_1";
    assert Lower("Reason") == "reason";
  }

  /** The column the dashboard derives is never taken for a reason-code column. */
  lemma DerivedColumnIsNotReason()
    ensures !IsReasonColumn("policy_decision")
  {
    assert Lower("policy_decision") == "policy_decision";
    FirstCharMissing("policy_decision", "reason");
  }

  /** A string that lacks the first character of `sub` does not contain `sub`. */
  lemma {:induction false} FirstCharMissing(s: string, sub: string)
    requires sub != [] && sub[0] !in s
    ensures !Contains(s, sub)
  {
    if s != [] {
      assert s[0] != sub[0];
      FirstCharMissing(s[1..], sub);
    }
  }
}
