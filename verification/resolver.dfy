/** Chat resolution and the chat listings of wa-helper.js: `findChat`,
    `listGroups` and `listContacts`, over the snapshot of chats the client's
    `getChats()` returned. */
module Resolver {
  import opened Wrappers
  import opened Text

  /** A chat's `id`: its serialized form (`"...@c.us"`, `"...@g.us"`) and
      the user part (the phone digits of a direct chat). */
  datatype ChatId = ChatId(serialized: string, user: string)

  /** A chat record as the client returns it. A chat may lack an `id`; an
      empty `name` or `formattedTitle` stands for a missing one (both are
      falsy in the source). */
  datatype Chat = Chat(id: Option<ChatId>, name: string, formattedTitle: string, isGroup: bool)

  /** `c.name || c.formattedTitle || ""`: the name if there is one, else the
      formatted title; empty only when both are missing. */
  function DisplayName(c: Chat): (r: string)
    ensures c.name != [] ==> r == c.name
    ensures c.name == [] ==> r == c.formattedTitle
    ensures r == [] <==> c.name == [] && c.formattedTitle == []
  {
    if c.name != [] then c.name else c.formattedTitle
  }

  /** The three searches of `findChat`, each a `chats.find(...)`. */
  datatype Step =
    | BySerialized(query: string)   // c.id && c.id._serialized === q
    | ByUser(digits: string)        // c.id && c.id.user === digits
    | ByName(lowered: string)       // (name || formattedTitle || "").toLowerCase().includes(qLower)

  predicate Matches(step: Step, c: Chat)
  {
    match step
    case BySerialized(q) => c.id.Some? && c.id.value.serialized == q
    case ByUser(d) => c.id.Some? && c.id.value.user == d
    case ByName(l) => Contains(ToLower(DisplayName(c)), l)
  }

  /** `i` is the index `Array.prototype.find` stops at. */
  ghost predicate FirstMatch(chats: seq<Chat>, step: Step, i: int)
  {
    0 <= i < |chats| && Matches(step, chats[i]) && forall j :: 0 <= j < i ==> !Matches(step, chats[j])
  }

  ghost predicate NoMatch(chats: seq<Chat>, step: Step)
  {
    forall j :: 0 <= j < |chats| ==> !Matches(step, chats[j])
  }

  /** The index of the first chat the step matches, in list order. */
  function FindFirst(chats: seq<Chat>, step: Step): (r: Option<nat>)
    ensures r.Some? ==> FirstMatch(chats, step, r.value)
    ensures r.None? <==> NoMatch(chats, step)
  {
    if chats == [] then None
    else if Matches(step, chats[0]) then Some(0)
    else match FindFirst(chats[1..], step)
      case None => None
      case Some(i) => Some(i + 1)
  }

  /** `findChat(client, query)`: the trimmed query is looked up as a
      serialized id, then (when it has digits) as a user part, then as a
      case-insensitive substring of the display name; `None` is `null`. */
  function FindChat(chats: seq<Chat>, query: string): (r: Option<Chat>)
    ensures r.Some? ==> r.value in chats
    ensures Trim(query) == [] ==> r.None?
  {
    var q := Trim(query);
    if q == [] then None else Search(chats, q)
  }

  /** The three searches of `findChat` for a non-empty trimmed query `q`,
      each tried only when the ones before it found nothing. */
  function Search(chats: seq<Chat>, q: string): (r: Option<Chat>)
    ensures r.Some? ==> r.value in chats
  {
    var direct := FindFirst(chats, BySerialized(q));
    if direct.Some? then Some(chats[direct.value])
    else
      var digits := Digits(q);
      var byPhone := if digits != [] then FindFirst(chats, ByUser(digits)) else None;
      if byPhone.Some? then Some(chats[byPhone.value])
      else
        var byName := FindFirst(chats, ByName(ToLower(q)));
        if byName.Some? then Some(chats[byName.value]) else None
  }

  /** A serialized-id match wins over everything else: the first chat whose
      id is the trimmed query is returned, whatever its name. */
  lemma ResolvesBySerializedId(chats: seq<Chat>, query: string, i: int)
    requires Trim(query) != []
    requires FirstMatch(chats, BySerialized(Trim(query)), i)
    ensures FindChat(chats, query) == Some(chats[i])
  {
  }

  /** With no id match, the first chat whose user part equals the query's
      digits is returned, group chats included, even when some chat's name
      also contains the query. */
  lemma ResolvesByPhone(chats: seq<Chat>, query: string, i: int)
    requires Trim(query) != [] && Digits(Trim(query)) != []
    requires NoMatch(chats, BySerialized(Trim(query)))
    requires FirstMatch(chats, ByUser(Digits(Trim(query))), i)
    ensures FindChat(chats, query) == Some(chats[i])
  {
  }

  /** With neither an id nor a phone match, the first chat whose lower-cased
      display name contains the lower-cased query is returned; chats without
      an id take part in this step. */
  lemma ResolvesByName(chats: seq<Chat>, query: string, i: int)
    requires Trim(query) != []
    requires NoMatch(chats, BySerialized(Trim(query)))
    requires Digits(Trim(query)) == [] || NoMatch(chats, ByUser(Digits(Trim(query))))
    requires FirstMatch(chats, ByName(ToLower(Trim(query))), i)
    ensures FindChat(chats, query) == Some(chats[i])
  {
  }

  /** `findChat` returns `null` exactly when the trimmed query is empty or
      none of the three steps matches any chat. */
  lemma NotFoundIff(chats: seq<Chat>, query: string)
    ensures FindChat(chats, query).None? <==>
      var q := Trim(query);
      q == [] ||
      (NoMatch(chats, BySerialized(q))
       && (Digits(q) == [] || NoMatch(chats, ByUser(Digits(q))))
       && NoMatch(chats, ByName(ToLower(q))))
  {
  }

  /** Only the trimmed query matters: resolving the trimmed query gives the
      same chat. */
  lemma QueryIsTrimmed(chats: seq<Chat>, query: string)
    ensures FindChat(chats, Trim(query)) == FindChat(chats, query)
  {
    TrimIdempotent(query);
  }

  /** A query made only of digits that is some chat's user part resolves to
      the first such chat, even when an earlier chat's name contains those
      digits (a group named "555-1234567 Crew" does not capture the query
      "5551234567"); only a chat whose serialized id is the query could. */
  lemma DigitQueryBeatsNames(chats: seq<Chat>, query: string, i: int)
    requires query != [] && forall k :: 0 <= k < |query| ==> IsDigit(query[k])
    requires NoMatch(chats, BySerialized(query))
    requires FirstMatch(chats, ByUser(query), i)
    ensures FindChat(chats, query) == Some(chats[i])
  {
    assert forall k :: 0 <= k < |query| ==> !IsSpace(query[k]);
    TrimOfWord(query);
    DigitsOfDigits(query);
    ResolvesByPhone(chats, query, i);
  }

  // === listGroups / listContacts ===

  /** `chats.filter(c => c.isGroup)`. */
  function GroupChats(chats: seq<Chat>): (r: seq<Chat>)
    ensures |r| <= |chats|
    ensures forall c :: c in r <==> c in chats && c.isGroup
  {
    if chats == [] then []
    else if chats[0].isGroup then [chats[0]] + GroupChats(chats[1..])
    else GroupChats(chats[1..])
  }

  /** `chats.filter(c => !c.isGroup)`. */
  function DirectChats(chats: seq<Chat>): (r: seq<Chat>)
    ensures |r| <= |chats|
    ensures forall c :: c in r <==> c in chats && !c.isGroup
  {
    if chats == [] then []
    else if !chats[0].isGroup then [chats[0]] + DirectChats(chats[1..])
    else DirectChats(chats[1..])
  }

  /** The two filters split the chat list: every chat lands in exactly one. */
  lemma {:induction false} FiltersPartition(chats: seq<Chat>)
    ensures |GroupChats(chats)| + |DirectChats(chats)| == |chats|
  {
    if chats != [] {
      FiltersPartition(chats[1..]);
    }
  }

  /** The filters keep list order: filtering a concatenation concatenates the
      filtered parts. */
  lemma {:induction false} GroupChatsKeepOrder(a: seq<Chat>, b: seq<Chat>)
    ensures GroupChats(a + b) == GroupChats(a) + GroupChats(b)
  {
    if a == [] {
      assert a + b == b;
    } else {
      assert (a + b)[1..] == a[1..] + b;
      GroupChatsKeepOrder(a[1..], b);
    }
  }

  lemma {:induction false} DirectChatsKeepOrder(a: seq<Chat>, b: seq<Chat>)
    ensures DirectChats(a + b) == DirectChats(a) + DirectChats(b)
  {
    if a == [] {
      assert a + b == b;
    } else {
      assert (a + b)[1..] == a[1..] + b;
      DirectChatsKeepOrder(a[1..], b);
    }
  }

  /** An entry of `listGroups`: `{ name: g.name, id: g.id._serialized }`. */
  datatype GroupEntry = GroupEntry(name: string, id: string)

  /** An entry of `listContacts`: `{ name, id, phone: c.id.user }`. */
  datatype ContactEntry = ContactEntry(name: string, id: string, phone: string)

  predicate AllHaveIds(chats: seq<Chat>)
  {
    forall i :: 0 <= i < |chats| ==> chats[i].id.Some?
  }

  /** `listGroups(client)`: one entry per group chat, in list order; `None`
      when some group chat has no id (the source throws a TypeError reading
      `g.id._serialized`). */
  function ListGroups(chats: seq<Chat>): (r: Option<seq<GroupEntry>>)
    ensures r.None? <==> exists c :: c in chats && c.isGroup && c.id.None?
    ensures r.Some? ==> |r.value| == |GroupChats(chats)|
    ensures r.Some? ==> forall i :: 0 <= i < |r.value| ==>
      var g := GroupChats(chats)[i];
      g.isGroup && g.id.Some? && r.value[i] == GroupEntry(g.name, g.id.value.serialized)
  {
    var groups := GroupChats(chats);
    if !AllHaveIds(groups) then
      assert exists i :: 0 <= i < |groups| && groups[i].id.None?;
      None
    else
      Some(seq(|groups|, i requires 0 <= i < |groups| => GroupEntry(groups[i].name, groups[i].id.value.serialized)))
  }

  /** `listContacts(client)`: one entry per direct chat, in list order, named
      by `name || formattedTitle || ""`, with the user part as phone; `None`
      when some direct chat has no id. */
  function ListContacts(chats: seq<Chat>): (r: Option<seq<ContactEntry>>)
    ensures r.None? <==> exists c :: c in chats && !c.isGroup && c.id.None?
    ensures r.Some? ==> |r.value| == |DirectChats(chats)|
    ensures r.Some? ==> forall i :: 0 <= i < |r.value| ==>
      var c := DirectChats(chats)[i];
      !c.isGroup && c.id.Some? &&
      r.value[i] == ContactEntry(DisplayName(c), c.id.value.serialized, c.id.value.user)
  {
    var contacts := DirectChats(chats);
    if !AllHaveIds(contacts) then
      assert exists i :: 0 <= i < |contacts| && contacts[i].id.None?;
      None
    else
      Some(seq(|contacts|, i requires 0 <= i < |contacts| =>
        ContactEntry(DisplayName(contacts[i]), contacts[i].id.value.serialized, contacts[i].id.value.user)))
  }

  /** When every chat has an id, the two listings together have one entry per
      chat. */
  lemma ListingsCoverAllChats(chats: seq<Chat>)
    requires forall c :: c in chats ==> c.id.Some?
    ensures ListGroups(chats).Some? && ListContacts(chats).Some?
    ensures |ListGroups(chats).value| + |ListContacts(chats).value| == |chats|
  {
    FiltersPartition(chats);
  }
}
