/** The list endpoint's search filter: a customer is listed when its first or last name
    contains the term ignoring case, or its email contains the term as written. */
module Search {
  import opened Tables

  /** Lower-cases one character; only the ASCII letters A-Z have a lower case here. */
  function Lower(ch: char): char {
    if 'A' <= ch <= 'Z' then (ch as int + 32) as char else ch
  }

  function LowerAll(s: string): (r: string)
    ensures |r| == |s|
    ensures forall i :: 0 <= i < |s| ==> r[i] == Lower(s[i])
  {
    seq(|s|, i requires 0 <= i < |s| => Lower(s[i]))
  }

  /** `t` occurs in `s` starting at position `i`. */
  predicate OccursAt(s: string, t: string, i: int) {
    0 <= i && i + |t| <= |s| && s[i..i + |t|] == t
  }

  lemma OccursShifted(s: string, t: string, i: int)
    requires |s| > 0 && 0 <= i
    ensures OccursAt(s[1..], t, i) <==> OccursAt(s, t, i + 1)
  {
    if 0 <= i && i + |t| <= |s| - 1 {
      assert s[1..][i..i + |t|] == s[i + 1..i + 1 + |t|];
    }
  }

  /** Substring search, scanning the start positions from the left. */
  function Contains(s: string, t: string): (found: bool)
    decreases |s|
    ensures found <==> exists i :: OccursAt(s, t, i)
  {
    if |t| > |s| then false
    else if s[..|t|] == t then
      assert OccursAt(s, t, 0);
      true
    else
      assert !OccursAt(s, t, 0);
      assert forall i :: OccursAt(s[1..], t, i) ==> OccursAt(s, t, i + 1) by {
        forall i | OccursAt(s[1..], t, i) ensures OccursAt(s, t, i + 1) {
          OccursShifted(s, t, i);
        }
      }
      assert forall i :: OccursAt(s, t, i) ==> OccursAt(s[1..], t, i - 1) by {
        forall i | OccursAt(s, t, i) ensures OccursAt(s[1..], t, i - 1) {
          OccursShifted(s, t, i - 1);
        }
      }
      Contains(s[1..], t)
  }

  /** `contains` with `mode: 'insensitive'`: the term occurs somewhere once both sides are
      lower-cased. */
  function ContainsIgnoringCase(s: string, t: string): (found: bool)
    ensures found <==> exists i :: OccursAt(LowerAll(s), LowerAll(t), i)
  {
    Contains(LowerAll(s), LowerAll(t))
  }

  /** Whether the customer is listed for the query's search term; an absent or empty term
      applies no filter. */
  function Matches(c: Customer, search: Option<string>): (listed: bool)
    ensures search.None? || search == Some("") ==> listed
    ensures search.Some? && search.value != "" ==>
              (listed <==>
                 || (exists i :: OccursAt(LowerAll(c.contact.firstName), LowerAll(search.value), i))
                 || (exists i :: OccursAt(LowerAll(c.contact.lastName), LowerAll(search.value), i))
                 || (exists i :: OccursAt(c.contact.email, search.value, i)))
  {
    match search
    case None => true
    case Some(term) =>
      term == "" ||
      ContainsIgnoringCase(c.contact.firstName, term) ||
      ContainsIgnoringCase(c.contact.lastName, term) ||
      Contains(c.contact.email, term)
  }

  /** The customers the list endpoint returns for a search term. */
  function Listed(customers: map<nat, Customer>, search: Option<string>): (r: map<nat, Customer>)
    ensures r.Keys <= customers.Keys
    ensures forall k :: k in r ==> r[k] == customers[k]
  {
    map k | k in customers && Matches(customers[k], search) :: customers[k]
  }

  // ---------------------------------------------------------------------------
  // Properties

  /** With no term, or an empty one, every customer is listed. */
  lemma NoTermListsEveryone(customers: map<nat, Customer>, search: Option<string>)
    requires search.None? || search == Some("")
    ensures Listed(customers, search) == customers
  {
  }

  /** With a term, a customer is listed exactly when the term occurs in its lower-cased
      first or last name, or as written in its email. */
  lemma ListedIffOccurs(customers: map<nat, Customer>, term: string, k: nat)
    requires term != "" && k in customers
    ensures k in Listed(customers, Some(term)) <==>
            || (exists i :: OccursAt(LowerAll(customers[k].contact.firstName), LowerAll(term), i))
            || (exists i :: OccursAt(LowerAll(customers[k].contact.lastName), LowerAll(term), i))
            || (exists i :: OccursAt(customers[k].contact.email, term, i))
  {
  }

  /** A term found in a name as written is also found ignoring case. */
  lemma ExactMatchIgnoringCase(s: string, t: string)
    requires Contains(s, t)
    ensures ContainsIgnoringCase(s, t)
  {
    var i :| OccursAt(s, t, i);
    LowerAllKeepsOccurrence(s, t, i);
  }

  /** The case of the term does not matter to the name conditions. */
  lemma NameMatchIgnoresTermCase(name: string, term: string, other: string)
    requires LowerAll(term) == LowerAll(other)
    ensures ContainsIgnoringCase(name, term) == ContainsIgnoringCase(name, other)
  {
  }

  lemma {:induction false} OccursTransitive(s: string, m: string, t: string, i: int, j: int)
    requires OccursAt(s, m, i) && OccursAt(m, t, j)
    ensures OccursAt(s, t, i + j)
  {
    forall k | 0 <= k < |t| ensures s[i + j + k] == t[k] {
      assert s[i + j + k] == s[i..i + |m|][j + k];
      assert m[j + k] == m[j..j + |t|][k];
    }
    assert s[i + j..i + j + |t|] == t;
  }

  lemma {:induction false} ContainsTransitive(s: string, m: string, t: string)
    requires Contains(s, m) && Contains(m, t)
    ensures Contains(s, t)
  {
    var i :| OccursAt(s, m, i);
    var j :| OccursAt(m, t, j);
    OccursTransitive(s, m, t, i, j);
  }

  lemma {:induction false} LowerAllKeepsOccurrence(s: string, t: string, i: int)
    requires OccursAt(s, t, i)
    ensures OccursAt(LowerAll(s), LowerAll(t), i)
  {
    assert LowerAll(s)[i..i + |t|] == LowerAll(t);
  }

  /** Refining the term narrows the list: a term that contains another lists no customer
      the other does not. */
  lemma {:induction false} LongerTermListsFewer(customers: map<nat, Customer>, narrow: string, wide: string)
    requires Contains(narrow, wide)
    ensures Listed(customers, Some(narrow)).Keys <= Listed(customers, Some(wide)).Keys
  {
    var i :| OccursAt(narrow, wide, i);
    LowerAllKeepsOccurrence(narrow, wide, i);
    forall k | k in Listed(customers, Some(narrow)) ensures k in Listed(customers, Some(wide)) {
      var c := customers[k].contact;
      if wide != "" {
        assert narrow != "";
        if ContainsIgnoringCase(c.firstName, narrow) {
          ContainsTransitive(LowerAll(c.firstName), LowerAll(narrow), LowerAll(wide));
        } else if ContainsIgnoringCase(c.lastName, narrow) {
          ContainsTransitive(LowerAll(c.lastName), LowerAll(narrow), LowerAll(wide));
        } else {
          ContainsTransitive(c.email, narrow, wide);
        }
      }
    }
  }
}
