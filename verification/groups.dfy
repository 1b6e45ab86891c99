/** Group membership operations of wa-helper.js: `listGroupParticipants`,
    `removeGroupParticipant` and `removeAllParticipants`. The chat client is
    a snapshot: its chat list, its own id (`client.info.wid._serialized`) and
    the participants `getChatById` reports for a chat id. The removal call
    is recorded, and whether it succeeds is an input. */
module Groups {
  import opened Wrappers
  import opened Resolver

  datatype Participant = Participant(id: string, name: string, pushname: string, isAdmin: bool, isSuperAdmin: bool)

  datatype Client = Client(chats: seq<Chat>, selfId: string, participantsOf: string -> seq<Participant>)

  /** An entry of `listGroupParticipants`. */
  datatype MemberInfo = MemberInfo(id: string, name: string, isAdmin: bool)

  /** What the removal operations resolve to. `Threw` is a rejected promise:
      the resolved group chat has no id, so reading `chat.id._serialized`
      raises a TypeError. */
  datatype Reply =
    | Success                            // { success: true }
    | SuccessRemoved(removed: seq<string>) // { success: true, removed }
    | Failure(error: string)             // { error }
    | Threw

  /** A reply together with the arguments of every `removeParticipants` call
      made on the way, in order. */
  datatype Effect = Effect(reply: Reply, removals: seq<seq<string>>)

  const GROUP_NOT_FOUND := "Group not found"
  const NOT_ADMIN := "You are not an admin in this group"
  const REMOVE_ONE_FAILED := "Failed to remove participant"
  const REMOVE_ALL_FAILED := "Failed to remove participants"

  /** `p.name || p.pushname || ""`: the name if there is one, else the push
      name; empty only when both are missing. */
  function MemberName(p: Participant): (r: string)
    ensures p.name != [] ==> r == p.name
    ensures p.name == [] ==> r == p.pushname
    ensures r == [] <==> p.name == [] && p.pushname == []
  {
    if p.name != [] then p.name else p.pushname
  }

  /** `group.participants.find(p => p.id._serialized === selfId)`, as an
      index. */
  function FindParticipant(ps: seq<Participant>, id: string): (r: Option<nat>)
    ensures r.Some? ==> r.value < |ps| && ps[r.value].id == id && forall j :: 0 <= j < r.value ==> ps[j].id != id
    ensures r.None? <==> forall j :: 0 <= j < |ps| ==> ps[j].id != id
  {
    if ps == [] then None
    else if ps[0].id == id then Some(0)
    else match FindParticipant(ps[1..], id)
      case None => None
      case Some(i) => Some(i + 1)
  }

  /** The caller may change the group: its first membership record is an
      admin or super-admin one. */
  ghost predicate CallerIsAdmin(ps: seq<Participant>, selfId: string)
  {
    exists i :: 0 <= i < |ps| && ps[i].id == selfId && (ps[i].isAdmin || ps[i].isSuperAdmin)
      && forall j :: 0 <= j < i ==> ps[j].id != selfId
  }

  /** The caller is an admin exactly when `find` locates its record and that
      record is an admin one. */
  lemma CallerRecordIsFirst(ps: seq<Participant>, selfId: string)
    ensures CallerIsAdmin(ps, selfId) <==>
      FindParticipant(ps, selfId).Some? && (ps[FindParticipant(ps, selfId).value].isAdmin || ps[FindParticipant(ps, selfId).value].isSuperAdmin)
  {
    var me := FindParticipant(ps, selfId);
    if me.Some? && (ps[me.value].isAdmin || ps[me.value].isSuperAdmin) {
      assert ps[me.value].id == selfId;
    }
  }

  /** The ids of every participant other than the caller, in order. */
  function Targets(ps: seq<Participant>, selfId: string): (r: seq<string>)
    ensures |r| <= |ps|
    ensures selfId !in r
    ensures forall t :: t in r <==> t != selfId && exists p :: p in ps && p.id == t
  {
    if ps == [] then []
    else if ps[0].id != selfId then [ps[0].id] + Targets(ps[1..], selfId)
    else Targets(ps[1..], selfId)
  }

  /** The targets keep the participants' order. */
  lemma {:induction false} TargetsKeepOrder(a: seq<Participant>, b: seq<Participant>, selfId: string)
    ensures Targets(a + b, selfId) == Targets(a, selfId) + Targets(b, selfId)
  {
    if a == [] {
      assert a + b == b;
    } else {
      assert (a + b)[1..] == a[1..] + b;
      TargetsKeepOrder(a[1..], b, selfId);
    }
  }

  /** Each participant is a target unless it is the caller: the count is the
      number of participants minus the caller's records. */
  lemma {:induction false} TargetsCount(ps: seq<Participant>, selfId: string)
    ensures |Targets(ps, selfId)| + |SelfRecords(ps, selfId)| == |ps|
  {
    if ps != [] {
      TargetsCount(ps[1..], selfId);
    }
  }

  function SelfRecords(ps: seq<Participant>, selfId: string): seq<Participant>
  {
    if ps == [] then []
    else if ps[0].id == selfId then [ps[0]] + SelfRecords(ps[1..], selfId)
    else SelfRecords(ps[1..], selfId)
  }

  /** The chat `findChat` picks is a group. */
  predicate ResolvesToGroup(chats: seq<Chat>, groupQuery: string)
  {
    var c := FindChat(chats, groupQuery);
    c.Some? && c.value.isGroup
  }

  /** The participant listing: one entry per participant, in order, carrying
      its id, its display name (the name, else the push name) and whether it
      is an admin or a super-admin. */
  function MemberInfos(ps: seq<Participant>): (r: seq<MemberInfo>)
    ensures |r| == |ps|
    ensures forall i :: 0 <= i < |ps| ==> r[i].id == ps[i].id && (r[i].isAdmin <==> ps[i].isAdmin || ps[i].isSuperAdmin)
    ensures forall i :: 0 <= i < |ps| ==> r[i].name == if ps[i].name != [] then ps[i].name else ps[i].pushname
  {
    if ps == [] then [] else [MemberInfo(ps[0].id, MemberName(ps[0]), ps[0].isAdmin || ps[0].isSuperAdmin)] + MemberInfos(ps[1..])
  }

  /** The outcome of `listGroupParticipants`: `NoGroup` is its `null`,
      `ListingThrew` the TypeError of a group chat without id. */
  datatype Listing = NoGroup | Members(members: seq<MemberInfo>) | ListingThrew

  /** `listGroupParticipants(client, groupQuery)`: `null` exactly when the
      query does not resolve to a group chat; otherwise the participants of
      that chat. */
  function ListGroupParticipants(client: Client, groupQuery: string): (r: Listing)
    ensures r.NoGroup? <==> !ResolvesToGroup(client.chats, groupQuery)
    ensures r.ListingThrew? <==> ResolvesToGroup(client.chats, groupQuery) && FindChat(client.chats, groupQuery).value.id.None?
    ensures r.Members? ==> r.members == MemberInfos(client.participantsOf(FindChat(client.chats, groupQuery).value.id.value.serialized))
  {
    var chat := FindChat(client.chats, groupQuery);
    if chat.None? || !chat.value.isGroup then NoGroup
    else if chat.value.id.None? then ListingThrew
    else Members(MemberInfos(client.participantsOf(chat.value.id.value.serialized)))
  }

  /** The checks `removeGroupParticipant` and `removeAllParticipants` share:
      the group must resolve, and the caller must be an admin in it. */
  datatype Gate = Denied(reply: Reply) | Granted(members: seq<Participant>)

  function AdminGate(client: Client, groupQuery: string): (g: Gate)
    ensures g == Denied(Failure(GROUP_NOT_FOUND)) <==> !ResolvesToGroup(client.chats, groupQuery)
    ensures g == Denied(Threw) <==>
      ResolvesToGroup(client.chats, groupQuery) && FindChat(client.chats, groupQuery).value.id.None?
    ensures g.Granted? <==>
      ResolvesToGroup(client.chats, groupQuery) && FindChat(client.chats, groupQuery).value.id.Some? &&
      CallerIsAdmin(client.participantsOf(FindChat(client.chats, groupQuery).value.id.value.serialized), client.selfId)
    ensures g.Granted? ==>
      g.members == client.participantsOf(FindChat(client.chats, groupQuery).value.id.value.serialized)
    ensures g.Denied? ==> g.reply in {Failure(GROUP_NOT_FOUND), Threw, Failure(NOT_ADMIN)}
  {
    var chat := FindChat(client.chats, groupQuery);
    if chat.None? || !chat.value.isGroup then Denied(Failure(GROUP_NOT_FOUND))
    else if chat.value.id.None? then Denied(Threw)
    else
      var ps := client.participantsOf(chat.value.id.value.serialized);
      var me := FindParticipant(ps, client.selfId);
      if me.None? || !(ps[me.value].isAdmin || ps[me.value].isSuperAdmin) then
        assert !CallerIsAdmin(ps, client.selfId) by {
          CallerRecordIsFirst(ps, client.selfId);
        }
        Denied(Failure(NOT_ADMIN))
      else
        CallerRecordIsFirst(ps, client.selfId);
        Granted(ps)
  }

  /** `removeGroupParticipant(client, groupQuery, participantId)`: exactly
      one removal call, of that participant alone, and only once the gate is
      passed; its outcome decides the reply. */
  function RemoveGroupParticipant(client: Client, groupQuery: string, participantId: string, removalSucceeds: bool): (e: Effect)
    ensures e.removals != [] <==> AdminGate(client, groupQuery).Granted?
    ensures e.removals != [] ==> e.removals == [[participantId]]
    ensures e.reply == Success <==> AdminGate(client, groupQuery).Granted? && removalSucceeds
    ensures !removalSucceeds ==> e.reply != Success
    ensures AdminGate(client, groupQuery).Granted? && !removalSucceeds ==> e.reply == Failure(REMOVE_ONE_FAILED)
    ensures AdminGate(client, groupQuery).Denied? ==> e.reply == AdminGate(client, groupQuery).reply
  {
    match AdminGate(client, groupQuery)
    case Denied(reply) => Effect(reply, [])
    case Granted(_) =>
      Effect(if removalSucceeds then Success else Failure(REMOVE_ONE_FAILED), [[participantId]])
  }

  /** `removeAllParticipants(client, groupQuery)`: once the gate is passed,
      every participant other than the caller is removed in one call, in
      order; with nobody to remove there is no call and `removed` is empty. */
  function RemoveAllParticipants(client: Client, groupQuery: string, removalSucceeds: bool): (e: Effect)
    ensures |e.removals| <= 1
    ensures e.removals != [] ==>
      AdminGate(client, groupQuery).Granted? &&
      e.removals[0] == Targets(AdminGate(client, groupQuery).members, client.selfId) && e.removals[0] != []
    ensures e.reply.SuccessRemoved? ==>
      AdminGate(client, groupQuery).Granted? &&
      e.reply.removed == Targets(AdminGate(client, groupQuery).members, client.selfId) &&
      client.selfId !in e.reply.removed
    ensures AdminGate(client, groupQuery).Granted? ==>
      (e.reply.SuccessRemoved? <==> removalSucceeds || e.removals == [])
    ensures AdminGate(client, groupQuery).Granted? && Targets(AdminGate(client, groupQuery).members, client.selfId) != [] ==>
      e.removals == [Targets(AdminGate(client, groupQuery).members, client.selfId)]
    ensures AdminGate(client, groupQuery).Granted? && e.removals != [] && !removalSucceeds ==> e.reply == Failure(REMOVE_ALL_FAILED)
    ensures AdminGate(client, groupQuery).Denied? ==> e.reply == AdminGate(client, groupQuery).reply && e.removals == []
  {
    match AdminGate(client, groupQuery)
    case Denied(reply) => Effect(reply, [])
    case Granted(ps) =>
      var targets := Targets(ps, client.selfId);
      if targets == [] then Effect(SuccessRemoved([]), [])
      else Effect(if removalSucceeds then SuccessRemoved(targets) else Failure(REMOVE_ALL_FAILED), [targets])
  }

  /** A caller who is not in the group, or whose record is neither admin nor
      super-admin, is refused by both removal operations and no removal call
      is made. */
  lemma NonAdminRemovesNothing(client: Client, groupQuery: string, participantId: string, ok: bool)
    requires ResolvesToGroup(client.chats, groupQuery)
    requires FindChat(client.chats, groupQuery).value.id.Some?
    requires !CallerIsAdmin(client.participantsOf(FindChat(client.chats, groupQuery).value.id.value.serialized), client.selfId)
    ensures RemoveGroupParticipant(client, groupQuery, participantId, ok) == Effect(Failure(NOT_ADMIN), [])
    ensures RemoveAllParticipants(client, groupQuery, ok) == Effect(Failure(NOT_ADMIN), [])
  {
  }

  /** A group the caller administers with nobody else in it: success with
      `removed: []` and no call. */
  lemma AloneInGroup(client: Client, groupQuery: string, ok: bool)
    requires AdminGate(client, groupQuery).Granted?
    requires forall p :: p in AdminGate(client, groupQuery).members ==> p.id == client.selfId
    ensures RemoveAllParticipants(client, groupQuery, ok) == Effect(SuccessRemoved([]), [])
  {
    var ps := AdminGate(client, groupQuery).members;
    if Targets(ps, client.selfId) != [] {
      assert Targets(ps, client.selfId)[0] in Targets(ps, client.selfId);
    }
  }
}
