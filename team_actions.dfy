/**
 * Team membership: create a team (the caller becomes its first member) under a join code drawn
 * from four random bytes, and join a team by its code, which moves the caller to that team.
 */
module TeamActions {
  import opened Base
  import opened Store

  const Unauthorized := "Unauthorized"
  const NameTooShort := "Team name must be at least 3 characters"
  const CreateFailed := "Failed to create team. Name might be taken."
  const TeamCreated := "Team created successfully"
  const InvalidJoinCode := "Invalid join code"
  const JoinFailed := "Failed to join team"
  const TeamJoined := "Joined team successfully"

  /** The shortest accepted team name, in characters. */
  const MinNameLength := 3
  /** How many random bytes a join code is made from. */
  const JoinCodeBytes := 4

  // ------------------------------------------------------------- join codes

  /** The lower-case hexadecimal digit of a value below 16. */
  function LowerDigit(n: nat): (c: char)
    requires n < 16
    ensures ('0' <= c <= '9' && c as int == '0' as int + n) || ('a' <= c <= 'f' && c as int == 'a' as int + n - 10)
  {
    if n < 10 then ('0' as int + n) as char else ('a' as int + n - 10) as char
  }

  /** The upper-case hexadecimal digit of a value below 16. */
  function UpperDigit(n: nat): (c: char)
    requires n < 16
    ensures IsUpperHexDigit(c)
  {
    if n < 10 then ('0' as int + n) as char else ('A' as int + n - 10) as char
  }

  predicate IsUpperHexDigit(c: char) {
    '0' <= c <= '9' || 'A' <= c <= 'F'
  }

  /** Lower-case hexadecimal, two digits per byte, high nibble first. */
  function Hex(bytes: seq<byte>): (s: string)
    ensures |s| == 2 * |bytes|
    ensures forall i | 0 <= i < |bytes| ::
      s[2 * i] == LowerDigit(bytes[i] as int / 16) && s[2 * i + 1] == LowerDigit(bytes[i] as int % 16)
  {
    if bytes == [] then []
    else [LowerDigit(bytes[0] as int / 16), LowerDigit(bytes[0] as int % 16)] + Hex(bytes[1..])
  }

  /** The ASCII upper case of a character: a-z become A-Z, everything else is kept. */
  function UpperChar(c: char): char {
    if 'a' <= c <= 'z' then (c as int - 32) as char else c
  }

  /** Upper-casing that maps the ASCII letters a-z to A-Z and leaves every other character alone. */
  function UpperAscii(s: string): (r: string)
    ensures |r| == |s|
    ensures forall i | 0 <= i < |s| :: r[i] == UpperChar(s[i])
  {
    if s == [] then [] else [UpperChar(s[0])] + UpperAscii(s[1..])
  }

  /** Upper-casing a lower-case hexadecimal digit gives the upper-case digit of the same value. */
  lemma UpperHexDigit(n: nat)
    requires n < 16
    ensures UpperChar(LowerDigit(n)) == UpperDigit(n)
  {
    if n >= 10 {
      assert LowerDigit(n) as int - 32 == UpperDigit(n) as int;
    }
  }

  /** The join code of the random bytes: two upper-case hexadecimal digits per byte, high nibble first. */
  function JoinCode(entropy: seq<byte>): (code: string)
    ensures |code| == 2 * |entropy|
  {
    if entropy == [] then []
    else [UpperDigit(entropy[0] as int / 16), UpperDigit(entropy[0] as int % 16)] + JoinCode(entropy[1..])
  }

  /** The join code is the bytes' lower-case hexadecimal form, upper-cased, as the action builds it. */
  lemma {:induction false} JoinCodeIsUpperHex(entropy: seq<byte>)
    ensures UpperAscii(Hex(entropy)) == JoinCode(entropy)
  {
    if entropy != [] {
      var hex := Hex(entropy);
      assert hex == [LowerDigit(entropy[0] as int / 16), LowerDigit(entropy[0] as int % 16)] + Hex(entropy[1..]);
      UpperHexDigit(entropy[0] as int / 16);
      UpperHexDigit(entropy[0] as int % 16);
      JoinCodeIsUpperHex(entropy[1..]);
      assert UpperAscii(hex) == [UpperChar(hex[0])] + UpperAscii(hex[1..]);
      assert UpperAscii(hex[1..]) == [UpperChar(hex[1])] + UpperAscii(hex[2..]);
      assert hex[2..] == Hex(entropy[1..]);
    }
  }

  /** The value of an upper-case hexadecimal digit. */
  function DigitOf(c: char): (n: nat)
    ensures n < 16
    ensures IsUpperHexDigit(c) ==> UpperDigit(n) == c
  {
    if '0' <= c <= '9' then c as int - '0' as int
    else if 'A' <= c <= 'F' then c as int - 'A' as int + 10
    else 0
  }

  /** The bytes a join code was made from: two digits per byte. */
  function Unhex(code: string): (bytes: seq<byte>)
    ensures 2 * |bytes| <= |code| < 2 * |bytes| + 2
  {
    if |code| < 2 then []
    else [(DigitOf(code[0]) * 16 + DigitOf(code[1])) as byte] + Unhex(code[2..])
  }

  /** Reading a digit back gives its value. */
  lemma DigitOfDigit(n: nat)
    requires n < 16
    ensures DigitOf(UpperDigit(n)) == n
  {
  }

  /** Reading back the two digits of a byte gives the byte. */
  lemma ByteDigits(b: byte)
    ensures (DigitOf(UpperDigit(b as int / 16)) * 16 + DigitOf(UpperDigit(b as int % 16))) as byte == b
  {
    DigitOfDigit(b as int / 16);
    DigitOfDigit(b as int % 16);
  }

  /** The join code loses nothing: the bytes can be read back from it, so distinct bytes give distinct codes. */
  lemma {:induction false} JoinCodeRoundTrip(entropy: seq<byte>)
    ensures Unhex(JoinCode(entropy)) == entropy
  {
    if entropy != [] {
      var b, rest := entropy[0], entropy[1..];
      var hi, lo := UpperDigit(b as int / 16), UpperDigit(b as int % 16);
      assert JoinCode(entropy) == [hi, lo] + JoinCode(rest);
      UnhexCons(hi, lo, JoinCode(rest));
      ByteDigits(b);
      JoinCodeRoundTrip(rest);
      HeadTail(entropy);
    }
  }

  /** Two digits in front of a code give one byte in front of its bytes. */
  lemma UnhexCons(hi: char, lo: char, code: string)
    ensures Unhex([hi, lo] + code) == [(DigitOf(hi) * 16 + DigitOf(lo)) as byte] + Unhex(code)
  {
    var s := [hi, lo] + code;
    assert s[0] == hi && s[1] == lo && s[2..] == code;
  }

  /** A code made from four bytes is eight upper-case hexadecimal characters. */
  lemma JoinCodeShape(entropy: seq<byte>)
    requires |entropy| == JoinCodeBytes
    ensures |JoinCode(entropy)| == 8
    ensures forall i | 0 <= i < 8 :: IsUpperHexDigit(JoinCode(entropy)[i])
  {
    JoinCodeDigits(entropy);
  }

  /** Every character of a join code is an upper-case hexadecimal digit. */
  lemma {:induction false} JoinCodeDigits(entropy: seq<byte>)
    ensures forall k | 0 <= k < |JoinCode(entropy)| :: IsUpperHexDigit(JoinCode(entropy)[k])
  {
    if entropy != [] {
      var b, rest := entropy[0], entropy[1..];
      var code := JoinCode(entropy);
      assert code == [UpperDigit(b as int / 16), UpperDigit(b as int % 16)] + JoinCode(rest);
      JoinCodeDigits(rest);
      forall k | 0 <= k < |code| ensures IsUpperHexDigit(code[k]) {
        if k >= 2 {
          assert code[k] == JoinCode(rest)[k - 2];
        }
      }
    }
  }

  // ------------------------------------------------------------- create

  /** Why createTeam refuses, if it does: no session, a short name, or a clash with the schema. */
  function CreateTeamRefusal(
    session: Option<Session>, name: string, code: string, users: map<Id, User>, teams: map<Id, Team>
  ): (refusal: Option<string>)
    ensures refusal.None? <==>
      && session.Some? && |name| >= MinNameLength && session.value.userId in users
      && forall k | k in teams :: teams[k].name != name && teams[k].joinCode != code
    ensures session.None? ==> refusal == Some(Unauthorized)
    ensures session.Some? && |name| < MinNameLength ==> refusal == Some(NameTooShort)
    ensures refusal.Some? && session.Some? && |name| >= MinNameLength ==> refusal.value == CreateFailed
  {
    if session.None? then Some(Unauthorized)
    else if |name| < MinNameLength then Some(NameTooShort)
    else if session.value.userId !in users || exists k | k in teams :: teams[k].name == name || teams[k].joinCode == code
    then Some(CreateFailed)
    else None
  }

  /** The team a successful createTeam inserts: the next identity, the name, the code, no points. */
  function NewTeam(id: Id, name: string, code: string): (t: Team)
    ensures t.id == id && t.name == name && t.joinCode == code && t.score == 0
  {
    Team(id, name, code, 0)
  }

  /** The team whose join code is `code`, if there is one. */
  ghost function TeamWithCode(teams: map<Id, Team>, code: string): (r: Option<Id>)
    ensures r.Some? ==> r.value in teams && teams[r.value].joinCode == code
    ensures r.None? <==> forall k | k in teams :: teams[k].joinCode != code
  {
    if exists k | k in teams :: teams[k].joinCode == code
    then var k :| k in teams && teams[k].joinCode == code; Some(k)
    else None
  }

  /** Join codes being unique, the team with a code is the only one that has it. */
  lemma TeamWithCodeUnique(teams: map<Id, Team>, code: string, k: Id)
    requires forall a, b | a in teams && b in teams && a != b :: teams[a].joinCode != teams[b].joinCode
    requires k in teams && teams[k].joinCode == code
    ensures TeamWithCode(teams, code) == Some(k)
  {
  }

  /** A team just created is found by its join code, so its creator's teammates can join it. */
  lemma CreatedTeamJoinable(teams: map<Id, Team>, id: Id, name: string, code: string)
    requires forall a, b | a in teams && b in teams && a != b :: teams[a].joinCode != teams[b].joinCode
    requires forall k | k in teams :: teams[k].joinCode != code
    ensures TeamWithCode(teams[id := NewTeam(id, name, code)], code) == Some(id)
  {
    var teams' := teams[id := NewTeam(id, name, code)];
    TeamWithCodeUnique(teams', code, id);
  }

  /**
   * createTeam. On success exactly one team is added, with the caller as its member (moved from
   * any previous team) and a score of 0; otherwise nothing changes.
   */
  method CreateTeam(p: Platform, session: Option<Session>, name: string, entropy: seq<byte>) returns (r: Reply<string>)
    requires p.Valid()
    requires |entropy| == JoinCodeBytes
    modifies p`users, p`teams, p`nextId
    ensures p.Valid()
    ensures old(LedgerMatches(p.teams, p.challenges, p.submissions)) ==> LedgerMatches(p.teams, p.challenges, p.submissions)
    ensures
      match old(CreateTeamRefusal(session, name, JoinCode(entropy), p.users, p.teams))
      case Some(message) =>
        r == Err(message) && p.users == old(p.users) && p.teams == old(p.teams) && p.nextId == old(p.nextId)
      case None =>
        var uid := session.value.userId;
        var id := old(p.nextId);
        && r == Ok(TeamCreated)
        && p.teams == old(p.teams)[id := NewTeam(id, name, JoinCode(entropy))]
        && p.users == old(p.users)[uid := old(p.users)[uid].(teamId := Some(id))]
        && p.nextId == id + 1
  {
    var code := JoinCode(entropy);
    var refusal := CreateTeamRefusal(session, name, code, p.users, p.teams);
    if refusal.Some? {
      return Err(refusal.value);
    }
    var uid := session.value.userId;
    var id := p.NewId();
    var team := NewTeam(id, name, code);
    NewTeamKeepsLedger(p.teams, p.challenges, p.submissions, team);
    ConsistentAddTeam(p.users, p.teams, p.challenges, p.leases, p.submissions, id, team, uid);
    p.teams := p.teams[id := team];
    p.users := p.users[uid := p.users[uid].(teamId := Some(id))];
    r := Ok(TeamCreated);
  }

  /** A new team with no submissions and no points keeps the scores equal to the ledger. */
  lemma NewTeamKeepsLedger(teams: map<Id, Team>, challenges: map<Id, Challenge>, submissions: seq<Submission>, team: Team)
    requires team.score == 0 && team.id !in teams
    requires forall i | 0 <= i < |submissions| :: submissions[i].teamId in teams
    ensures LedgerMatches(teams, challenges, submissions) ==> LedgerMatches(teams[team.id := team], challenges, submissions)
  {
    EarnedNone(submissions, challenges, team.id);
  }

  /** Inserting a team under a fresh identity, with a name and a code no team has, and moving a user to it keeps the tables consistent. */
  lemma ConsistentAddTeam(
    users: map<Id, User>, teams: map<Id, Team>, challenges: map<Id, Challenge>,
    leases: seq<Lease>, submissions: seq<Submission>, nextId: Id, team: Team, uid: Id)
    requires Consistent(users, teams, challenges, leases, submissions, nextId)
    requires team.id == nextId && uid in users
    requires forall k | k in teams :: teams[k].name != team.name && teams[k].joinCode != team.joinCode
    ensures Consistent(users[uid := users[uid].(teamId := Some(team.id))], teams[team.id := team],
                       challenges, leases, submissions, nextId + 1)
  {
  }

  // ------------------------------------------------------------- join

  /**
   * joinTeam. A known code moves the caller to that team, whatever team they were on; no other
   * user changes. An unknown code, or a caller with no account row, changes nothing.
   */
  method JoinTeam(p: Platform, session: Option<Session>, joinCode: string) returns (r: Reply<string>)
    requires p.Valid()
    modifies p`users
    ensures p.Valid()
    ensures
      if session.None? then r == Err(Unauthorized) && p.users == old(p.users)
      else match TeamWithCode(p.teams, joinCode)
        case None => r == Err(InvalidJoinCode) && p.users == old(p.users)
        case Some(t) =>
          var uid := session.value.userId;
          if uid !in old(p.users) then r == Err(JoinFailed) && p.users == old(p.users)
          else r == Ok(TeamJoined) && p.users == old(p.users)[uid := old(p.users)[uid].(teamId := Some(t))]
  {
    if session.None? {
      return Err(Unauthorized);
    }
    if !exists k | k in p.teams :: p.teams[k].joinCode == joinCode {
      return Err(InvalidJoinCode);
    }
    var t :| t in p.teams && p.teams[t].joinCode == joinCode;
    TeamWithCodeUnique(p.teams, joinCode, t);
    var uid := session.value.userId;
    if uid !in p.users {
      return Err(JoinFailed);
    }
    p.users := p.users[uid := p.users[uid].(teamId := Some(t))];
    r := Ok(TeamJoined);
  }
}
