/**
 * Room-code handling of the home and online lobby screens: building an
 * invite link, guarding copy and share, checking the player's name and
 * joining a room. Both screens define these helpers identically.
 */
module Invite {
  import opened Options
  import opened Strings

  const JoinUrlPrefix := "https://mafia.party/join/"
  const LobbyPath := "/lobby/[roomId]"

  datatype Invitation = Invitation(code: string, url: string)

  /** A code as the screens store it: nothing to trim, no lower-case letter. */
  predicate IsNormalCode(c: string) {
    Trim(c) == c && IsUpper(c)
  }

  /** `String(code || "").trim().toUpperCase()`; `None` is `null`/`undefined`. */
  function NormaliseCode(code: Option<string>): (c: string)
    ensures c == ToUpper(Trim(code.GetOr("")))
    ensures IsNormalCode(c)
    ensures c == [] <==> IsBlank(code.GetOr(""))
  {
    var raw := code.GetOr("");
    TrimEmptyIffBlank(raw);
    TrimIdempotent(raw);
    TrimOfUpper(Trim(raw));
    ToUpperIsUpper(Trim(raw));
    ToUpper(Trim(raw))
  }

  /** `buildInvite(code)`: the normalised code and the join link made from it. */
  function BuildInvite(code: Option<string>): (inv: Invitation)
    ensures inv.code == NormaliseCode(code)
    ensures IsNormalCode(inv.code)
    ensures inv.code == [] <==> IsBlank(code.GetOr(""))
    ensures inv.url == JoinUrlPrefix + inv.code
  {
    var c := NormaliseCode(code);
    Invitation(c, JoinUrlPrefix + c)
  }

  /** A code that is already normal comes back unchanged. */
  lemma NormalCodeIsFixed(c: string)
    requires IsNormalCode(c)
    ensures NormaliseCode(Some(c)) == c
  {
    ToUpperIsUpper(c);
  }

  /** Building an invite from the code of an invite gives the same invite. */
  lemma BuildInviteIdempotent(code: Option<string>)
    ensures BuildInvite(Some(BuildInvite(code).code)) == BuildInvite(code)
  {
    NormalCodeIsFixed(BuildInvite(code).code);
  }

  /** The part of the link after the prefix is exactly the code. */
  lemma InviteUrlCarriesCode(code: Option<string>)
    ensures BuildInvite(code).url[|JoinUrlPrefix|..] == BuildInvite(code).code
  {
  }

  datatype ShareRequest = CodeNeeded | CopyLink(url: string) | ShareMessage(message: string)

  /** `copyInvite`: refused when the code is empty, else the link is copied. */
  function CopyInvite(roomCode: string): (r: ShareRequest)
    ensures r == CodeNeeded <==> IsBlank(roomCode)
    ensures r != CodeNeeded ==> r == CopyLink(BuildInvite(Some(roomCode)).url)
  {
    var inv := BuildInvite(Some(roomCode));
    assert Some(roomCode).GetOr("") == roomCode;
    if inv.code == [] then CodeNeeded else CopyLink(inv.url)
  }

  /** The text `shareInvite` sends. */
  function ShareText(inv: Invitation): string {
    "Join my Mafia room " + inv.code + ": " + inv.url
  }

  /** `shareInvite`: refused when the code is empty, else a message naming the
      code and the link is shared. */
  function ShareInvite(roomCode: string): (r: ShareRequest)
    ensures r == CodeNeeded <==> IsBlank(roomCode)
    ensures r != CodeNeeded ==> r == ShareMessage(ShareText(BuildInvite(Some(roomCode))))
  {
    var inv := BuildInvite(Some(roomCode));
    assert Some(roomCode).GetOr("") == roomCode;
    if inv.code == [] then CodeNeeded else ShareMessage(ShareText(inv))
  }

  /** `ensureName`: a name is accepted when it has some visible character. */
  function EnsureName(name: string): (ok: bool)
    ensures ok <==> exists i :: 0 <= i < |name| && !IsWhiteSpace(name[i])
  {
    TrimEmptyIffBlank(name);
    Trim(name) != []
  }

  datatype JoinResult =
    | MissingName
    | MissingCode
    | Navigate(pathname: string, roomId: string, name: string)

  /** `joinRoom`: the name is checked first, then the code; on success the
      lobby is opened with the trimmed, upper-cased code and the name as
      typed. */
  function JoinRoom(name: string, roomCode: string): (r: JoinResult)
    ensures r == MissingName <==> IsBlank(name)
    ensures r == MissingCode <==> !IsBlank(name) && IsBlank(roomCode)
    ensures r.Navigate? ==> r == Navigate(LobbyPath, NormaliseCode(Some(roomCode)), name)
  {
    TrimEmptyIffBlank(name);
    if !EnsureName(name) then MissingName
    else
      var code := ToUpper(Trim(roomCode));
      if code == [] then MissingCode else Navigate(LobbyPath, code, name)
  }

  /** Joining with the code of an invite opens the room the invite names. */
  lemma JoinWithInviteCode(name: string, code: Option<string>)
    requires !IsBlank(name) && !IsBlank(code.GetOr(""))
    ensures JoinRoom(name, BuildInvite(code).code) == Navigate(LobbyPath, BuildInvite(code).code, name)
  {
    var c := BuildInvite(code).code;
    NormalCodeIsFixed(c);
    TrimEmptyIffBlank(c);
  }
}
