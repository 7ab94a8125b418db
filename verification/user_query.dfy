/** The optional filters of `getAllUsers`: each truthy query parameter adds an
    ILIKE condition on its column, with a numbered placeholder, and binds the
    pattern `%value%`. The SQL text itself is represented by its conditions. */
module UserQuery {
  import opened Js

  /** `column ILIKE $placeholder` */
  datatype Condition = ILike(column: string, placeholder: nat)

  /** The WHERE conditions (joined with AND; none means no WHERE clause) and
      the values bound to the placeholders, in order. */
  datatype Query = Query(conditions: seq<Condition>, values: seq<string>)

  function Pattern(s: string): (pattern: string) { "%" + s + "%" }

  /** The placeholders are $1..$n, in the order of the n bound values. Postgres
      refuses a statement with a placeholder that has no bound value, which is
      what an email-only search produces. */
  predicate WellNumbered(q: Query) {
    |q.conditions| == |q.values|
    && forall i :: 0 <= i < |q.conditions| ==> q.conditions[i].placeholder == i + 1
  }

  /** The filter as the handler builds it: name is always `$1`, email always `$2`. */
  function UserFilterAsWritten(name: Field<string>, email: Field<string>): (q: Query)
    ensures |q.conditions| == |q.values|
    ensures |q.conditions| == (if TruthyText(name) then 1 else 0) + (if TruthyText(email) then 1 else 0)
    ensures TruthyText(name) ==> q.conditions[0] == ILike("name", 1) && q.values[0] == Pattern(name.value)
    ensures TruthyText(email) ==>
              q.conditions[|q.conditions| - 1] == ILike("email", 2) && q.values[|q.values| - 1] == Pattern(email.value)
  {
    var byName := if TruthyText(name) then Query([ILike("name", 1)], [Pattern(name.value)]) else Query([], []);
    if TruthyText(email) then Query(byName.conditions + [ILike("email", 2)], byName.values + [Pattern(email.value)])
    else byName
  }

  /** An email-only search refers to `$2` while binding a single value. */
  lemma EmailOnlyFilterIsMisnumbered(email: string)
    requires email != ""
    ensures UserFilterAsWritten(Undefined, Given(email)) == Query([ILike("email", 2)], [Pattern(email)])
    ensures !WellNumbered(UserFilterAsWritten(Undefined, Given(email)))
  {
  }

  /** The filter with each placeholder numbered by the position of its value. */
  function UserFilter(name: Field<string>, email: Field<string>): (q: Query)
    ensures WellNumbered(q)
    ensures |q.conditions| == (if TruthyText(name) then 1 else 0) + (if TruthyText(email) then 1 else 0)
    ensures TruthyText(name) ==> q.conditions[0].column == "name" && q.values[0] == Pattern(name.value)
    ensures TruthyText(email) ==>
              q.conditions[|q.conditions| - 1].column == "email" && q.values[|q.values| - 1] == Pattern(email.value)
  {
    var byName := if TruthyText(name) then Query([ILike("name", 1)], [Pattern(name.value)]) else Query([], []);
    if TruthyText(email) then
      Query(byName.conditions + [ILike("email", |byName.values| + 1)], byName.values + [Pattern(email.value)])
    else byName
  }

  /** The two differ only on an email-only search. */
  lemma FiltersAgreeUnlessEmailOnly(name: Field<string>, email: Field<string>)
    requires TruthyText(name) || !TruthyText(email)
    ensures UserFilterAsWritten(name, email) == UserFilter(name, email)
  {
  }
}
