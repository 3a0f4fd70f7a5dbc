/** Parameterised SQL statements and the `col = ?` terms every builder uses. */
module Sql {
  import opened Strings

  /**
   * A value bound to a `?` placeholder. The table view hands out `str(value)`
   * for every cell it has and `None` (bound as SQL NULL) for an index outside it.
   */
  datatype Param = SqlNull | SqlText(text: string)

  /** What the builders pass to `cursor.execute(sql, params)`. */
  datatype Statement = Statement(sql: string, params: seq<Param>)

  /** The number of `?` placeholders in a statement's text. */
  function Placeholders(sql: string): nat
  {
    Count(sql, '?')
  }

  /** A statement binds exactly one parameter per placeholder. */
  predicate Balanced(st: Statement)
  {
    Placeholders(st.sql) == |st.params|
  }

  /** Identifiers that contain no `?` of their own. */
  predicate Unmarked(names: seq<string>)
  {
    forall i :: 0 <= i < |names| ==> '?' !in names[i]
  }

  /** `[f"{col} = ?" for col in names]`. */
  function EqTerms(names: seq<string>): seq<string>
  {
    if names == [] then [] else [names[0] + " = ?"] + EqTerms(names[1..])
  }

  /** The values typed into the dialog, bound as text. */
  function TextParams(values: seq<string>): seq<Param>
  {
    seq(|values|, i requires 0 <= i < |values| => SqlText(values[i]))
  }

  /** One `col = ?` term per name, in order. */
  lemma {:induction false} EqTermsAt(names: seq<string>)
    ensures |EqTerms(names)| == |names|
    ensures forall i :: 0 <= i < |names| ==> EqTerms(names)[i] == names[i] + " = ?"
  {
    if names != [] {
      EqTermsAt(names[1..]);
    }
  }

  /** A `col = ?` term over a name without `?` carries exactly one placeholder. */
  lemma {:induction false} EqTermCount(name: string)
    requires '?' !in name
    ensures Count(name + " = ?", '?') == 1
  {
    CountAbsent(name, '?');
    CountConcat(name, " = ?", '?');
    assert Count(" = ?", '?') == 1;
  }

  /** Each `col = ?` term carries exactly one placeholder. */
  lemma {:induction false} EqTermsCount(names: seq<string>)
    requires Unmarked(names)
    ensures CountAll(EqTerms(names), '?') == |names|
  {
    if names != [] {
      EqTermCount(names[0]);
      EqTermsCount(names[1..]);
    }
  }

  /** A list of `col = ?` terms joined by `sep` binds one placeholder per column. */
  lemma {:induction false} JoinedTermsCount(names: seq<string>, sep: string)
    requires Unmarked(names) && '?' !in sep
    ensures Placeholders(Join(EqTerms(names), sep)) == |names|
  {
    CountJoin(EqTerms(names), sep, '?');
    EqTermsCount(names);
  }
}
