/** The bookkeeping of play2earn_bot.py: Discord markdown escaping, the leaderboard
    filter / truncation / numbering, the invite cache kept across member joins and
    invite events, the played-minutes sums, and the integer branches of short_int.

    Discord calls (channels, roles, embeds, messages) and the invite database helpers
    are not modelled; the data they would return is passed in. */
module Play2Earn {
  import opened Common

  // ---------------------------------------------------------------------------
  // escape_discord_markdown

  /** The characters escaped, in the order the loop handles them: backslash first. */
  const EscapeChars: seq<char> := ['\\', '*', '_', '~', '`', '|', '>']

  /** Python's `s.replace(c, r)` for a one-character needle. */
  function ReplaceChar(s: string, c: char, r: string): string
  {
    if s == [] then [] else (if s[0] == c then r else [s[0]]) + ReplaceChar(s[1..], c, r)
  }

  /** Each character of `cs` in `s` preceded by a backslash; the others kept. */
  function EscapeWith(s: string, cs: seq<char>): string
  {
    if s == [] then [] else (if s[0] in cs then ['\\', s[0]] else [s[0]]) + EscapeWith(s[1..], cs)
  }

  /** The per-character escaping the Discord leaderboard needs: Discord shows the
      escaped text exactly as written, and it is one character longer per special
      character. */
  function Escaped(s: string): (e: string)
    ensures Unescape(e) == s
    ensures |e| == |s| + CountSpecials(s)
  {
    UnescapeEscapeWith(s);
    EscapeWithLength(s);
    EscapeWith(s, EscapeChars)
  }

  /** escape_discord_markdown: `text = text.replace(char, "\\" + char)` for each
      special character in turn. */
  method EscapeDiscordMarkdown(text: string) returns (r: string)
    ensures r == Escaped(text)
  {
    r := text;
    EscapeWithNone(text);
    var i := 0;
    while i < |EscapeChars|
      invariant 0 <= i <= |EscapeChars|
      invariant r == EscapeWith(text, EscapeChars[..i])
    {
      var c := EscapeChars[i];
      ReplaceAfterEscape(text, EscapeChars[..i], c);
      assert EscapeChars[..i + 1] == EscapeChars[..i] + [c];
      r := ReplaceChar(r, c, ['\\', c]);
      i := i + 1;
    }
    assert EscapeChars[..i] == EscapeChars;
  }

  lemma {:induction false} EscapeWithNone(s: string)
    ensures EscapeWith(s, []) == s
    decreases |s|
  {
    if s != [] {
      EscapeWithNone(s[1..]);
      assert [s[0]] + s[1..] == s;
    }
  }

  lemma {:induction false} ReplaceCharAppend(a: string, b: string, c: char, r: string)
    ensures ReplaceChar(a + b, c, r) == ReplaceChar(a, c, r) + ReplaceChar(b, c, r)
    decreases |a|
  {
    if a != [] {
      assert (a + b)[1..] == a[1..] + b;
      ReplaceCharAppend(a[1..], b, c, r);
    } else {
      assert a + b == b;
    }
  }

  /** One pass of the loop: replacing the next special character in text escaped for
      the earlier ones. Backslash goes first, so the backslashes inserted later are
      never escaped again. */
  lemma {:induction false} ReplaceAfterEscape(s: string, cs: seq<char>, c: char)
    requires c !in cs && (c == '\\' ==> cs == []) && (cs != [] ==> c != '\\')
    ensures ReplaceChar(EscapeWith(s, cs), c, ['\\', c]) == EscapeWith(s, cs + [c])
    decreases |s|
  {
    if s == [] {
    } else if cs == [] {
      EscapeWithNone(s);
      ReplaceEscapesOne(s, c);
      assert cs + [c] == [c];
    } else {
      var piece := if s[0] in cs then ['\\', s[0]] else [s[0]];
      ReplaceCharAppend(piece, EscapeWith(s[1..], cs), c, ['\\', c]);
      ReplaceAfterEscape(s[1..], cs, c);
      if s[0] in cs {
        assert ReplaceChar(piece, c, ['\\', c]) == piece by {
          assert piece[1..] == [s[0]];
          assert [s[0]][1..] == [];
        }
      } else {
        assert [s[0]][1..] == [];
      }
    }
  }

  lemma {:induction false} ReplaceEscapesOne(s: string, c: char)
    ensures ReplaceChar(s, c, ['\\', c]) == EscapeWith(s, [c])
    decreases |s|
  {
    if s != [] {
      ReplaceEscapesOne(s[1..], c);
    }
  }

  function CountSpecials(s: string): nat {
    if s == [] then 0 else (if s[0] in EscapeChars then 1 else 0) + CountSpecials(s[1..])
  }

  lemma {:induction false} EscapeWithLength(s: string)
    ensures |EscapeWith(s, EscapeChars)| == |s| + CountSpecials(s)
    decreases |s|
  {
    if s != [] {
      EscapeWithLength(s[1..]);
    }
  }

  /** Discord's reading of the escaped text: a backslash makes the next character literal. */
  function Unescape(s: string): string
    decreases |s|
  {
    if s == [] then []
    else if s[0] == '\\' && |s| >= 2 then [s[1]] + Unescape(s[2..])
    else [s[0]] + Unescape(s[1..])
  }

  lemma {:induction false} UnescapeEscapeWith(s: string)
    ensures Unescape(EscapeWith(s, EscapeChars)) == s
    decreases |s|
  {
    if s != [] {
      var e, rest := EscapeWith(s, EscapeChars), EscapeWith(s[1..], EscapeChars);
      UnescapeEscapeWith(s[1..]);
      if s[0] in EscapeChars {
        assert e == ['\\', s[0]] + rest;
        assert e[2..] == rest;
      } else {
        assert s[0] != '\\';
        assert e == [s[0]] + rest;
        assert e[1..] == rest;
      }
      assert [s[0]] + s[1..] == s;
    }
  }

  /** Every special character of the escaped text is preceded by a backslash. */
  lemma {:induction false} EscapedHasNoBareSpecial(s: string)
    ensures var e := Escaped(s);
            forall i :: 0 <= i < |e| && e[i] in EscapeChars && e[i] != '\\' ==> i > 0 && e[i - 1] == '\\'
    decreases |s|
  {
    if s != [] {
      EscapedHasNoBareSpecial(s[1..]);
      var e, rest := Escaped(s), Escaped(s[1..]);
      var n := if s[0] in EscapeChars then 2 else 1;
      assert e[n..] == rest;
      forall i | 0 <= i < |e| && e[i] in EscapeChars && e[i] != '\\' ensures i > 0 && e[i - 1] == '\\' {
        if i >= n {
          assert e[i] == rest[i - n];
          assert e[i - 1] == rest[i - n - 1];
        }
      }
    }
  }

  // ---------------------------------------------------------------------------
  // update_leaderboard

  /** One row of get_leaderboard_top_users. */
  datatype LeaderUser = LeaderUser(name: string, totalChance: int, playedMinutes: int,
                                   invites: int, creatorCode: string)

  const OwnerTag := "XOWNERX"
  const CreatorTag := "XCONTENTCREATORX"

  predicate Listed(u: LeaderUser) {
    !Contains(u.name, OwnerTag) && !Contains(u.name, CreatorTag)
  }

  /** The list comprehension that drops tagged users, keeping the order. */
  function Leaderboard(raw: seq<LeaderUser>): (board: seq<LeaderUser>)
    ensures |board| <= |raw|
  {
    if raw == [] then [] else (if Listed(raw[0]) then [raw[0]] else []) + Leaderboard(raw[1..])
  }

  /** A user is on the board exactly when it is in the raw list and carries no tag. */
  lemma {:induction false} LeaderboardMembers(raw: seq<LeaderUser>, u: LeaderUser)
    ensures u in Leaderboard(raw) <==> u in raw && Listed(u)
    decreases |raw|
  {
    if raw != [] {
      LeaderboardMembers(raw[1..], u);
      assert raw == [raw[0]] + raw[1..];
    }
  }

  /** The filter keeps the relative order: it commutes with concatenation. */
  lemma {:induction false} LeaderboardAppend(a: seq<LeaderUser>, b: seq<LeaderUser>)
    ensures Leaderboard(a + b) == Leaderboard(a) + Leaderboard(b)
    decreases |a|
  {
    if a != [] {
      assert (a + b)[1..] == a[1..] + b;
      LeaderboardAppend(a[1..], b);
    } else {
      assert a + b == b;
    }
  }

  /** The name shown: names longer than 10 characters are cut to their first 9. */
  function DisplayName(name: string): (shown: string)
    ensures |shown| <= 10
    ensures |name| <= 10 ==> shown == name
    ensures |name| > 10 ==> |shown| == 9 && shown == name[..9]
  {
    if |name| > 10 then name[..9] else name
  }

  /** A leaderboard row; the column padding of the f-string is not modelled. */
  datatype BoardRow = BoardRow(rank: nat, name: string, totalChance: int, playedMinutes: int,
                               invites: int, creatorCode: string)

  /** The row loop of update_leaderboard: `enumerate(leaderboard, 1)`. */
  method LeaderboardRows(raw: seq<LeaderUser>) returns (rows: seq<BoardRow>)
    ensures var board := Leaderboard(raw);
            |rows| == |board|
            && forall k :: 0 <= k < |rows| ==>
                 rows[k] == BoardRow(k + 1, Escaped(DisplayName(board[k].name)), board[k].totalChance,
                                     board[k].playedMinutes, board[k].invites, board[k].creatorCode)
  {
    var board := Leaderboard(raw);
    rows := [];
    var i := 0;
    while i < |board|
      invariant 0 <= i <= |board| && |rows| == i
      invariant forall k :: 0 <= k < i ==>
                  rows[k] == BoardRow(k + 1, Escaped(DisplayName(board[k].name)), board[k].totalChance,
                                      board[k].playedMinutes, board[k].invites, board[k].creatorCode)
    {
      var user := board[i];
      var rawName := if |user.name| > 10 then user.name[..9] else user.name;
      var name := EscapeDiscordMarkdown(rawName);
      rows := rows + [BoardRow(i + 1, name, user.totalChance, user.playedMinutes, user.invites, user.creatorCode)];
      i := i + 1;
    }
  }

  // ---------------------------------------------------------------------------
  // The invite cache

  /** An invite of the guild: its code, its use count and its inviter's id (None for an
      invite without an inviter, such as a vanity or widget invite). */
  datatype Invite = Invite(code: string, uses: int, inviter: Option<nat>)

  /** `old_invites.get(code, 0)`. */
  function OldUses(cached: map<string, int>, code: string): int {
    if code in cached then cached[code] else 0
  }

  predicate WasUsed(inv: Invite, cached: map<string, int>) {
    inv.uses > OldUses(cached, inv.code)
  }

  /** The search loop of on_member_join: the first invite whose use count went up. */
  method FindUsedInvite(newInvites: seq<Invite>, cached: map<string, int>) returns (used: Option<Invite>)
    ensures used.None? <==> forall k :: 0 <= k < |newInvites| ==> !WasUsed(newInvites[k], cached)
    ensures used.Some? ==> exists k :: 0 <= k < |newInvites| && used.value == newInvites[k]
                                       && WasUsed(newInvites[k], cached)
                                       && forall j :: 0 <= j < k ==> !WasUsed(newInvites[j], cached)
  {
    used := None;
    var i := 0;
    while i < |newInvites|
      invariant 0 <= i <= |newInvites|
      invariant forall j :: 0 <= j < i ==> !WasUsed(newInvites[j], cached)
    {
      var invite := newInvites[i];
      var oldUses := if invite.code in cached then cached[invite.code] else 0;
      if invite.uses > oldUses {
        used := Some(invite);
        return;
      }
      i := i + 1;
    }
  }

  /** `{invite.code: invite.uses for invite in new_invites}`: a later duplicate code wins. */
  function UsesByCode(invites: seq<Invite>): (m: map<string, int>)
    ensures forall k :: 0 <= k < |invites| ==> invites[k].code in m
  {
    if invites == [] then map[]
    else
      var last := invites[|invites| - 1];
      UsesByCode(invites[..|invites| - 1])[last.code := last.uses]
  }

  lemma {:induction false} UsesByCodeKeys(invites: seq<Invite>, code: string)
    ensures code in UsesByCode(invites) <==> exists k :: 0 <= k < |invites| && invites[k].code == code
    decreases |invites|
  {
    if invites != [] {
      var init := invites[..|invites| - 1];
      UsesByCodeKeys(init, code);
      if exists k :: 0 <= k < |init| && init[k].code == code {
        var k :| 0 <= k < |init| && init[k].code == code;
        assert invites[k] == init[k];
      }
    }
  }

  /** The rebuilt cache maps each code to the uses of its last invite in the list. */
  lemma {:induction false} UsesByCodeValue(invites: seq<Invite>, k: nat)
    requires k < |invites|
    requires forall j :: k < j < |invites| ==> invites[j].code != invites[k].code
    ensures UsesByCode(invites)[invites[k].code] == invites[k].uses
    decreases |invites|
  {
    if k < |invites| - 1 {
      var init := invites[..|invites| - 1];
      assert init[k] == invites[k];
      UsesByCodeValue(init, k);
    }
  }

  /** on_invite_create: `invites.setdefault(guild, {})[code] = uses`. */
  function InviteCreated(invites: map<nat, map<string, int>>, guild: nat, code: string, uses: int)
    : (r: map<nat, map<string, int>>)
    ensures r.Keys == invites.Keys + {guild}
    ensures guild in r && code in r[guild] && r[guild][code] == uses
    ensures forall g :: g in invites && g != guild ==> r[g] == invites[g]
  {
    var codes := if guild in invites then invites[guild] else map[];
    invites[guild := codes[code := uses]]
  }

  /** on_invite_delete: `invites.get(guild, {}).pop(code, None)`; an unknown guild or
      code changes nothing. */
  function InviteDeleted(invites: map<nat, map<string, int>>, guild: nat, code: string)
    : (r: map<nat, map<string, int>>)
    ensures r.Keys == invites.Keys
    ensures guild in r ==> code !in r[guild]
    ensures forall g :: g in invites && g != guild ==> r[g] == invites[g]
    ensures guild !in invites || code !in invites[guild] ==> r == invites
  {
    if guild in invites then
      assert code !in invites[guild] ==> invites[guild] - {code} == invites[guild];
      invites[guild := invites[guild] - {code}]
    else invites
  }

  /** Creating an invite and deleting it again leaves the cache of a known guild as it was. */
  lemma CreateThenDelete(invites: map<nat, map<string, int>>, guild: nat, code: string, uses: int)
    requires guild in invites && code !in invites[guild]
    ensures InviteDeleted(InviteCreated(invites, guild, code, uses), guild, code) == invites
  {
    var r := InviteDeleted(InviteCreated(invites, guild, code, uses), guild, code);
    assert r[guild] == invites[guild];
  }

  /** How on_member_join ends: the KeyError of an uncached guild; no invite used; an
      exception before anything was stored (the database write raised, or the invite has
      no inviter and `used_invite.inviter.id` raises); or the invite stored. */
  datatype JoinResult = GuildNotCached | NoInviteUsed | JoinAborted(invite: Invite) | InviteUsed(invite: Invite)

  /** The module-level `invites` and `invite_user_map` of the bot. */
  class InviteTracker {
    /** guild id -> invite code -> uses */
    var invites: map<nat, map<string, int>>
    /** member id -> (used code, inviter id) */
    var userMap: map<nat, (string, nat)>

    constructor ()
      ensures invites == map[] && userMap == map[]
    {
      invites, userMap := map[], map[];
    }

    /** on_member_join after the role step: `invites[guild.id]` raises a KeyError for a
        guild not cached; when an invite was used, the join is written to the database
        (`recorded` says whether that write returned), `used_invite.inviter.id` raises
        for an invite without an inviter, and then the member's mapping is stored and
        the guild's cache is replaced by the new counts; otherwise nothing changes.
        The notifications after the cache update change no state here. */
    method OnMemberJoin(guild: nat, member: nat, newInvites: seq<Invite>, recorded: bool)
      returns (result: JoinResult)
      modifies this
      ensures result == GuildNotCached <==> guild !in old(invites)
      ensures !result.InviteUsed? ==> invites == old(invites) && userMap == old(userMap)
      ensures result.JoinAborted? || result.InviteUsed? ==>
                && guild in old(invites)
                && result.invite in newInvites && WasUsed(result.invite, old(invites)[guild])
      ensures result.JoinAborted? || result.InviteUsed? ==>
                exists k :: 0 <= k < |newInvites| && result.invite == newInvites[k]
                            && forall j :: 0 <= j < k ==> !WasUsed(newInvites[j], old(invites)[guild])
      ensures result.JoinAborted? <==> (result.JoinAborted? || result.InviteUsed?)
                                       && (!recorded || result.invite.inviter.None?)
      ensures result.InviteUsed? ==>
                && result.invite.inviter.Some?
                && userMap == old(userMap)[member := (result.invite.code, result.invite.inviter.value)]
                && invites == old(invites)[guild := UsesByCode(newInvites)]
      ensures guild in old(invites) && (exists k :: 0 <= k < |newInvites| && WasUsed(newInvites[k], old(invites)[guild]))
              ==> result.JoinAborted? || result.InviteUsed?
    {
      if guild !in invites {
        return GuildNotCached;
      }
      var used := FindUsedInvite(newInvites, invites[guild]);
      if used.None? {
        return NoInviteUsed;
      }
      var inv := used.value;
      if !recorded || inv.inviter.None? {
        return JoinAborted(inv);
      }
      userMap := userMap[member := (inv.code, inv.inviter.value)];
      invites := invites[guild := UsesByCode(newInvites)];
      result := InviteUsed(inv);
    }

    method OnInviteCreate(guild: nat, code: string, uses: int)
      modifies this`invites
      ensures invites == InviteCreated(old(invites), guild, code, uses)
    {
      var codes := if guild in invites then invites[guild] else map[];
      invites := invites[guild := codes[code := uses]];
    }

    method OnInviteDelete(guild: nat, code: string)
      modifies this`invites
      ensures invites == InviteDeleted(old(invites), guild, code)
    {
      if guild in invites {
        invites := invites[guild := invites[guild] - {code}];
      }
    }

    /** on_member_remove: the inviter of a mapped member is told (when the id is truthy),
        then the member's mapping is dropped. `notified` says whether the notification
        steps (the database write, fetching the inviter, sending the message) returned;
        when one raises, the handler ends before the mapping is dropped. */
    method OnMemberRemove(member: nat, notified: bool) returns (inviter: Option<nat>)
      modifies this`userMap
      ensures inviter.Some? <==> member in old(userMap) && old(userMap)[member].1 != 0
      ensures inviter.Some? ==> inviter.value == old(userMap)[member].1
      ensures inviter.Some? && !notified ==> userMap == old(userMap)
      ensures inviter.None? || notified ==> userMap == old(userMap) - {member}
    {
      inviter := None;
      if member in userMap && userMap[member].1 != 0 {
        inviter := Some(userMap[member].1);
        if !notified {
          return;
        }
      }
      userMap := userMap - {member};
    }
  }

  // ---------------------------------------------------------------------------
  // Played minutes

  /** A user record file as a dict of JSON scalars. */
  type Record = map<string, Json>

  const MinutesKey := "played_minutes"

  /** A sum of played minutes, or the exception that ends it. */
  datatype MinutesResult = Total(minutes: int) | RaisesKeyError | RaisesTypeError

  /** `total += minutes` for a truthy JSON value: a bool counts as 0 or 1, a string
      cannot be added to an int. */
  function AddMinutes(total: MinutesResult, v: Json): (r: MinutesResult)
    ensures !Truthy(v) ==> r == total
    ensures total.Total? && v.JInt? && v.i != 0 ==> r == Total(total.minutes + v.i)
  {
    if !total.Total? || !Truthy(v) then total
    else match v
      case JInt(i) => Total(total.minutes + i)
      case JBool(b) => Total(total.minutes + 1)
      case JStr(_) => RaisesTypeError
      case JNull => total
  }

  /** The contribution of one `data/` entry to calculate_total_minutes_played. */
  function FileMinutes(total: MinutesResult, name: string, data: Record): MinutesResult {
    if !total.Total? || !EndsWith(name, ".json") || data == map[] then total
    else if MinutesKey !in data then RaisesKeyError
    else AddMinutes(total, data[MinutesKey])
  }

  /** A `.json` file with a non-empty record and no played minutes: `data[...]` raises. */
  predicate LacksMinutes(f: (string, Record)) {
    EndsWith(f.0, ".json") && f.1 != map[] && MinutesKey !in f.1
  }

  /** The sum over the listing: it stops at KeyError only on a file that lacks the key,
      and a sum that completes passed no such file. */
  function TotalMinutes(files: seq<(string, Record)>): (r: MinutesResult)
    ensures r == RaisesKeyError ==> exists k :: 0 <= k < |files| && LacksMinutes(files[k])
    ensures r.Total? ==> forall k :: 0 <= k < |files| ==> !LacksMinutes(files[k])
  {
    if files == [] then Total(0)
    else FileMinutes(TotalMinutes(files[..|files| - 1]), files[|files| - 1].0, files[|files| - 1].1)
  }

  /** calculate_total_minutes_played over the listing of `data/`, each file read as its
      record. */
  method CalculateTotalMinutesPlayed(files: seq<(string, Record)>) returns (r: MinutesResult)
    ensures r == TotalMinutes(files)
  {
    var total := 0;
    var i := 0;
    while i < |files|
      invariant 0 <= i <= |files|
      invariant TotalMinutes(files[..i]) == Total(total)
    {
      var (name, data) := files[i];
      assert files[..i + 1][..i] == files[..i] && files[..i + 1][i] == (name, data);
      if EndsWith(name, ".json") && data != map[] {
        if MinutesKey !in data {
          PoisonedStaysPoisoned(files, i + 1);
          return RaisesKeyError;
        }
        var minutes := data[MinutesKey];
        if Truthy(minutes) {
          match minutes {
            case JInt(m) => total := total + m;
            case JBool(_) => total := total + 1;
            case JStr(_) => {
              PoisonedStaysPoisoned(files, i + 1);
              return RaisesTypeError;
            }
          }
        }
      }
      i := i + 1;
    }
    assert files[..i] == files;
    return Total(total);
  }

  /** Once the sum has raised, the rest of the listing does not matter. */
  lemma {:induction false} PoisonedStaysPoisoned(files: seq<(string, Record)>, n: nat)
    requires n <= |files| && !TotalMinutes(files[..n]).Total?
    ensures TotalMinutes(files) == TotalMinutes(files[..n])
    decreases |files| - n
  {
    if n == |files| {
      assert files[..n] == files;
    } else {
      assert files[..n + 1][..n] == files[..n];
      PoisonedStaysPoisoned(files, n + 1);
    }
  }

  /** Files that are not `.json`, and empty records, do not change the total. */
  lemma SkippedFilesDoNotCount(files: seq<(string, Record)>, name: string, data: Record)
    requires !EndsWith(name, ".json") || data == map[]
    ensures TotalMinutes(files + [(name, data)]) == TotalMinutes(files)
  {
    assert (files + [(name, data)])[..|files|] == files;
  }

  /** With non-negative integer minutes everywhere, the total is the sum and not negative. */
  lemma {:induction false} TotalMinutesNonNegative(files: seq<(string, Record)>)
    requires forall k :: 0 <= k < |files| ==> MinutesKey in files[k].1 && files[k].1[MinutesKey].JInt?
                                               && files[k].1[MinutesKey].i >= 0
    ensures TotalMinutes(files).Total? && TotalMinutes(files).minutes >= 0
    decreases |files|
  {
    if files != [] {
      TotalMinutesNonNegative(files[..|files| - 1]);
    }
  }

  /** The minutes sum of the `creator` command: invited ids without a record are
      skipped, and a record without played minutes counts 0 (`.get(..., 0)`). */
  function CreatorMinutes(invited: seq<nat>, records: map<nat, Record>): (r: MinutesResult)
    ensures r != RaisesKeyError
  {
    if invited == [] then Total(0)
    else
      var total := CreatorMinutes(invited[..|invited| - 1], records);
      var id := invited[|invited| - 1];
      if id !in records || records[id] == map[] || MinutesKey !in records[id] then total
      else AddMinutes(total, records[id][MinutesKey])
  }

  method SumCreatorMinutes(invited: seq<nat>, records: map<nat, Record>) returns (r: MinutesResult)
    ensures r == CreatorMinutes(invited, records)
  {
    var total := 0;
    var i := 0;
    while i < |invited|
      invariant 0 <= i <= |invited|
      invariant CreatorMinutes(invited[..i], records) == Total(total)
    {
      var id := invited[i];
      assert invited[..i + 1][..i] == invited[..i] && invited[..i + 1][i] == id;
      if id in records && records[id] != map[] {
        var minutes := if MinutesKey in records[id] then records[id][MinutesKey] else JInt(0);
        if Truthy(minutes) {
          match minutes {
            case JInt(m) => total := total + m;
            case JBool(_) => total := total + 1;
            case JStr(_) => {
              CreatorPoisoned(invited, records, i + 1);
              return RaisesTypeError;
            }
          }
        }
      }
      i := i + 1;
    }
    assert invited[..i] == invited;
    return Total(total);
  }

  lemma {:induction false} CreatorPoisoned(invited: seq<nat>, records: map<nat, Record>, n: nat)
    requires n <= |invited| && !CreatorMinutes(invited[..n], records).Total?
    ensures CreatorMinutes(invited, records) == CreatorMinutes(invited[..n], records)
    decreases |invited| - n
  {
    if n == |invited| {
      assert invited[..n] == invited;
    } else {
      assert invited[..n + 1][..n] == invited[..n];
      CreatorPoisoned(invited, records, n + 1);
    }
  }

  /** Inviting someone who has no record yet does not change the creator's minutes. */
  lemma CreatorSkipsUnknown(invited: seq<nat>, records: map<nat, Record>, id: nat)
    requires id !in records
    ensures CreatorMinutes(invited + [id], records) == CreatorMinutes(invited, records)
  {
    assert (invited + [id])[..|invited|] == invited;
  }

  // ---------------------------------------------------------------------------
  // short_int

  /** short_int: the number itself below 1000; a K / M / B abbreviation of `num / divisor`
      (formatted with one decimal, which is not modelled) up to 10^12; None above. */
  datatype Short = Plain(n: int) | Scaled(suffix: char, divisor: nat) | NoShort

  function ShortInt(num: int): (r: Short)
    ensures num < 1000 <==> r == Plain(num)
    ensures num >= 1000000000000 <==> r.NoShort?
  {
    if num < 1000 then Plain(num)
    else if num < 1000000 then Scaled('K', 1000)
    else if num < 1000000000 then Scaled('M', 1000000)
    else if num < 1000000000000 then Scaled('B', 1000000000)
    else NoShort
  }

  /** The abbreviated value `num / divisor` lies in [1, 1000). */
  lemma ShortIntScale(num: int)
    requires ShortInt(num).Scaled?
    ensures var d := ShortInt(num).divisor;
            d > 0 && d <= num < 1000 * d
  {
  }
}
