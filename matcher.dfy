/**
 * The player lookup of `replaceShirtImages`: `playerData.find(...)` with the
 * predicate that compares the record's web name and 2024-25 team with what
 * the slot displays, both lower-cased.
 */
module Matcher {
  import opened Wrappers
  import opened Text
  import opened PlayerData

  const WebNameKey := "Web_Name"
  const TeamKey := "Team_2024-25"

  /** The lower-cased `Web_Name` contains the lower-cased displayed name. */
  predicate NameMatches(p: Record, name: string)
  {
    Get(p, WebNameKey).Some? && Contains(Lower(Get(p, WebNameKey).value), Lower(name))
  }

  /** The lower-cased `Team_2024-25` equals the lower-cased shirt team. */
  predicate TeamMatches(p: Record, team: string)
  {
    Get(p, TeamKey).Some? && Lower(Get(p, TeamKey).value) == Lower(team)
  }

  /**
   * What evaluating the `find` callback on one record does: false (Miss),
   * true (Hit), or a TypeError when the name matched but the record has no
   * team, so that `.toLowerCase()` is called on `undefined`.
   */
  datatype Verdict = Miss | Hit | Fault

  function Check(p: Record, name: string, team: string): (v: Verdict)
    ensures v == Hit <==> NameMatches(p, name) && TeamMatches(p, team)
    ensures v == Fault <==> NameMatches(p, name) && Get(p, TeamKey).None?
    ensures Get(p, WebNameKey).None? ==> v == Miss
  {
    match Get(p, WebNameKey)
    case None => Miss
    case Some(webName) =>
      if !Contains(Lower(webName), Lower(name)) then Miss
      else
        match Get(p, TeamKey)
        case None => Fault
        case Some(t) => if Lower(t) == Lower(team) then Hit else Miss
  }

  /** The outcome of `find`: a record, `undefined`, or a thrown TypeError. */
  datatype MatchResult = NoMatch | Found(player: Record) | TypeError

  /** `data.find(...)`: the callback runs on the records in order until one is true or throws. */
  function FindPlayer(name: string, team: string, data: seq<Record>): MatchResult
  {
    if data == [] then NoMatch
    else
      match Check(data[0], name, team)
      case Hit => Found(data[0])
      case Fault => TypeError
      case Miss => FindPlayer(name, team, data[1..])
  }

  /**
   * Soundness: a returned record is one of the data and meets both
   * conditions; `undefined` comes back exactly when every callback is
   * false; a TypeError only when some record matched by name has no team.
   */
  lemma {:induction false} FindPlayerSound(name: string, team: string, data: seq<Record>)
    ensures var r := FindPlayer(name, team, data);
      && (r.Found? ==> r.player in data && NameMatches(r.player, name) && TeamMatches(r.player, team))
      && (r == NoMatch <==> forall i :: 0 <= i < |data| ==> Check(data[i], name, team) == Miss)
      && (r == TypeError ==> exists i :: 0 <= i < |data| && Check(data[i], name, team) == Fault)
  {
    if data != [] && Check(data[0], name, team) == Miss {
      FindPlayerSound(name, team, data[1..]);
      assert forall i :: 1 <= i < |data| ==> data[i] == data[1..][i - 1];
      if FindPlayer(name, team, data) == TypeError {
        var i :| 0 <= i < |data[1..]| && Check(data[1..][i], name, team) == Fault;
        assert Check(data[i + 1], name, team) == Fault;
      }
    }
  }

  /**
   * First-ness: when record `j` is the first whose callback is not false,
   * `find` returns it (or throws at it).
   */
  lemma {:induction false} FindPlayerFirst(name: string, team: string, data: seq<Record>, j: nat)
    requires j < |data| && Check(data[j], name, team) != Miss
    requires forall i :: 0 <= i < j ==> Check(data[i], name, team) == Miss
    ensures FindPlayer(name, team, data) ==
              if Check(data[j], name, team) == Hit then Found(data[j]) else TypeError
  {
    if j > 0 {
      FindPlayerFirst(name, team, data[1..], j - 1);
    }
  }

  /** A returned record is the first that satisfies both conditions: no earlier record does. */
  lemma {:induction false} FoundIsFirst(name: string, team: string, data: seq<Record>)
    requires FindPlayer(name, team, data).Found?
    ensures exists j :: 0 <= j < |data| && data[j] == FindPlayer(name, team, data).player
                        && NameMatches(data[j], name) && TeamMatches(data[j], team)
                        && forall i :: 0 <= i < j ==> !(NameMatches(data[i], name) && TeamMatches(data[i], team))
  {
    if Check(data[0], name, team) != Hit {
      FoundIsFirst(name, team, data[1..]);
      var j :| 0 <= j < |data[1..]| && data[1..][j] == FindPlayer(name, team, data).player
               && NameMatches(data[1..][j], name) && TeamMatches(data[1..][j], team)
               && forall i :: 0 <= i < j ==> !(NameMatches(data[1..][i], name) && TeamMatches(data[1..][i], team));
      assert data[j + 1] == data[1..][j];
      assert forall i :: 1 <= i < j + 1 ==> data[i] == data[1..][i - 1];
    }
  }

  /**
   * Completeness: when some record satisfies both conditions and no earlier
   * record's name matches without a team, a record is found.
   */
  lemma {:induction false} FindPlayerComplete(name: string, team: string, data: seq<Record>, j: nat)
    requires j < |data| && NameMatches(data[j], name) && TeamMatches(data[j], team)
    requires forall i :: 0 <= i < j ==> Check(data[i], name, team) != Fault
    ensures FindPlayer(name, team, data).Found?
  {
    if Check(data[0], name, team) == Miss {
      FindPlayerComplete(name, team, data[1..], j - 1);
    }
  }
}
