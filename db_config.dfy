/** DbConfig: where the database credentials come from. A JVM system
    property wins over an environment variable, which wins over a built-in
    default. The two lookups are passed in; None stands for an unset
    property or variable (Java's null). */
module DbSettings {
  import opened Wrappers
  import opened Text

  /** The first candidate that is present and acceptable, else the default:
      the precedence rule both lookups follow. */
  function FirstAcceptable(candidates: seq<Option<string>>, acceptable: string -> bool, default: string): (value: string)
    ensures value == default || exists i :: 0 <= i < |candidates| && candidates[i] == Some(value) && acceptable(value)
  {
    if candidates == [] then default
    else if candidates[0].Some? && acceptable(candidates[0].value) then candidates[0].value
    else FirstAcceptable(candidates[1..], acceptable, default)
  }

  /** A candidate that is set and passes the test. */
  predicate Accepted(candidate: Option<string>, acceptable: string -> bool) {
    candidate.Some? && acceptable(candidate.value)
  }

  /** The precedence rule in full: the result is the earliest accepted
      candidate, and the default comes back only when no candidate is
      accepted. */
  lemma {:induction false} FirstAcceptableIsFirst(candidates: seq<Option<string>>, acceptable: string -> bool, default: string)
    ensures var value := FirstAcceptable(candidates, acceptable, default);
      || (value == default && forall i :: 0 <= i < |candidates| ==> !Accepted(candidates[i], acceptable))
      || exists i :: && 0 <= i < |candidates| && candidates[i] == Some(value) && acceptable(value)
                     && forall k :: 0 <= k < i ==> !Accepted(candidates[k], acceptable)
  {
    if candidates == [] {
    } else if Accepted(candidates[0], acceptable) {
      assert candidates[0] == Some(FirstAcceptable(candidates, acceptable, default));
    } else {
      var tail := candidates[1..];
      FirstAcceptableIsFirst(tail, acceptable, default);
      var value := FirstAcceptable(candidates, acceptable, default);
      assert value == FirstAcceptable(tail, acceptable, default);
      if exists j :: && 0 <= j < |tail| && tail[j] == Some(value) && acceptable(value)
                     && forall k :: 0 <= k < j ==> !Accepted(tail[k], acceptable) {
        var j :| && 0 <= j < |tail| && tail[j] == Some(value) && acceptable(value)
                 && forall k :: 0 <= k < j ==> !Accepted(tail[k], acceptable);
        assert forall k :: 0 <= k < j + 1 ==> !Accepted(candidates[k], acceptable) by {
          forall k | 0 <= k < j + 1
            ensures !Accepted(candidates[k], acceptable)
          {
            if k > 0 {
              assert candidates[k] == tail[k - 1];
            }
          }
        }
        assert candidates[j + 1] == tail[j];
      } else {
        assert value == default && forall i :: 0 <= i < |tail| ==> !Accepted(tail[i], acceptable);
        forall i | 0 <= i < |candidates|
          ensures !Accepted(candidates[i], acceptable)
        {
          if i > 0 {
            assert candidates[i] == tail[i - 1];
          }
        }
      }
    }
  }

  /** getUser: ledger.db.user, then LEDGER_DB_USER, each only when it is
      not blank, then "root". */
  function GetUser(property: Option<string>, environment: Option<string>): (user: string)
    ensures !IsBlank(user)
    ensures property.Some? && !IsBlank(property.value) ==> user == property.value
  {
    if property.Some? && !IsBlank(property.value) then property.value
    else if environment.Some? && !IsBlank(environment.value) then environment.value
    else assert "root"[0] == 'r'; "root"
  }

  /** getPassword: ledger.db.password, then LEDGER_DB_PASSWORD, whenever
      set, even to the empty string; otherwise empty. */
  function GetPassword(property: Option<string>, environment: Option<string>): (password: string)
    ensures property.Some? ==> password == property.value
  {
    if property.Some? then property.value
    else if environment.Some? then environment.value
    else ""
  }

  /** The user lookup is the precedence rule with blank values skipped. */
  lemma UserPrecedence(property: Option<string>, environment: Option<string>)
    ensures GetUser(property, environment) == FirstAcceptable([property, environment], s => !IsBlank(s), "root")
  {
    assert [property, environment][1..] == [environment];
  }

  /** The password lookup is the precedence rule with every value accepted. */
  lemma PasswordPrecedence(property: Option<string>, environment: Option<string>)
    ensures GetPassword(property, environment) == FirstAcceptable([property, environment], s => true, "")
  {
    assert [property, environment][1..] == [environment];
  }

  /** A blank user property falls through to the environment; an empty
      password property does not. */
  lemma BlankPropertyHandling(blank: string, fromEnvironment: string)
    requires IsBlank(blank) && !IsBlank(fromEnvironment)
    ensures GetUser(Some(blank), Some(fromEnvironment)) == fromEnvironment
    ensures GetUser(Some(blank), None) == "root"
    ensures GetPassword(Some(""), Some(fromEnvironment)) == ""
  {
  }
}
