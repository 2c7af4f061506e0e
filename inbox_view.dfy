/**
 * The inbox's conversation list: a search box over the conversation name, a
 * tab choosing all, individual or group conversations, and the advanced
 * filters "unread", "online" and "lastMessage" (a date range). A
 * conversation is listed when it passes all five tests, in list order.
 */
module InboxView {
  import opened Common
  import opened Strings
  import opened Dates
  import opened AdvancedFilter
  import opened ListPages

  datatype ConversationType = Individual | Group

  /** The tab: `"all"`, or one conversation type. */
  datatype TypeTab = All | Only(kind: ConversationType)

  /** A conversation; `isOnline` and `lastMessageTime` are optional in the source. */
  datatype Conversation = Conversation(
    id: string,
    name: string,
    kind: ConversationType,
    lastMessage: Option<string>,
    lastMessageTime: Option<int>,
    unreadCount: nat,
    isOnline: Option<bool>)

  /** `"has-unread"` asks for unread messages, `"no-unread"` for none; anything else asks nothing. */
  predicate UnreadPasses(c: Conversation, v: FilterValue) {
    if v == Text("has-unread") then c.unreadCount > 0
    else if v == Text("no-unread") then c.unreadCount == 0
    else true
  }

  /**
   * A truthy online filter applies to individual conversations only:
   * `"online"` needs `isOnline === true`, `"offline"` needs `isOnline === false`.
   */
  predicate OnlinePasses(c: Conversation, v: FilterValue) {
    if Truthy(v) && c.kind == Individual then
      if v == Text("online") then c.isOnline == Some(true)
      else if v == Text("offline") then c.isOnline == Some(false)
      else true
    else true
  }

  predicate TabPasses(c: Conversation, tab: TypeTab) {
    tab == All || tab == Only(c.kind)
  }

  /** All five tests of the list's filter callback. */
  predicate ConversationMatches(cal: Calendar, c: Conversation, query: string, tab: TypeTab, filters: FilterState) {
    && ContainsIgnoringCase(c.name, query)
    && TabPasses(c, tab)
    && UnreadPasses(c, Lookup(filters, "unread"))
    && OnlinePasses(c, Lookup(filters, "online"))
    && DateFilterPasses(cal, Lookup(filters, "lastMessage"), c.lastMessageTime)
  }

  /** The filter callback as written: two constants and three flags that start true and may be cleared. */
  method MatchConversation(cal: Calendar, c: Conversation, query: string, tab: TypeTab, filters: FilterState)
    returns (ok: bool)
    ensures ok == ConversationMatches(cal, c, query, tab, filters)
  {
    var matchesSearch := ContainsIgnoringCase(c.name, query);
    var matchesFilter := tab == All || tab == Only(c.kind);

    var unread := Lookup(filters, "unread");
    var matchesUnread := true;
    if unread == Text("has-unread") {
      matchesUnread := c.unreadCount > 0;
    } else if unread == Text("no-unread") {
      matchesUnread := c.unreadCount == 0;
    }

    var online := Lookup(filters, "online");
    var matchesOnline := true;
    if Truthy(online) && c.kind == Individual {
      if online == Text("online") {
        matchesOnline := c.isOnline == Some(true);
      } else if online == Text("offline") {
        matchesOnline := c.isOnline == Some(false);
      }
    }

    var matchesDate := MatchesDate(cal, Lookup(filters, "lastMessage"), c.lastMessageTime);

    ok := matchesSearch && matchesFilter && matchesUnread && matchesOnline && matchesDate;
  }

  /** `filteredConversations`: the matching conversations, in list order. */
  function FilteredConversations(cal: Calendar, conversations: seq<Conversation>, query: string, tab: TypeTab, filters: FilterState)
    : (r: seq<Conversation>)
    ensures |r| <= |conversations|
    ensures forall c :: c in r <==> c in conversations && ConversationMatches(cal, c, query, tab, filters)
  {
    Filter(conversations, (c: Conversation) => ConversationMatches(cal, c, query, tab, filters))
  }

  /** An empty search on the "all" tab with no advanced filter lists every conversation. */
  lemma NoFiltersListsAll(cal: Calendar, conversations: seq<Conversation>)
    ensures FilteredConversations(cal, conversations, "", All, map[]) == conversations
  {
    forall c | c in conversations
      ensures ConversationMatches(cal, c, "", All, map[])
    {
      EmptyQueryMatches(c.name);
    }
    FilterKeepsAll(conversations, (c: Conversation) => ConversationMatches(cal, c, "", All, map[]));
  }

  /** Group conversations are never hidden by the online filter, whatever its value. */
  lemma GroupsIgnoreOnlineFilter(cal: Calendar, c: Conversation, query: string, tab: TypeTab, filters: FilterState, v: FilterValue)
    requires c.kind == Group
    ensures ConversationMatches(cal, c, query, tab, filters["online" := v])
            == ConversationMatches(cal, c, query, tab, filters - {"online"})
  {
    assert Lookup(filters["online" := v], "lastMessage") == Lookup(filters - {"online"}, "lastMessage");
    assert Lookup(filters["online" := v], "unread") == Lookup(filters - {"online"}, "unread");
  }

  /**
   * An individual conversation whose presence is unknown is hidden by both
   * "online" and "offline": `undefined` is neither `true` nor `false`.
   */
  lemma UnknownPresenceHidden(cal: Calendar, c: Conversation, query: string, tab: TypeTab, filters: FilterState)
    requires c.kind == Individual && c.isOnline == None
    requires Lookup(filters, "online") == Text("online") || Lookup(filters, "online") == Text("offline")
    ensures !ConversationMatches(cal, c, query, tab, filters)
  {
  }

  /** "has-unread" and "no-unread" split the conversations: each one passes exactly one of them. */
  lemma UnreadFiltersSplit(c: Conversation)
    ensures UnreadPasses(c, Text("has-unread")) != UnreadPasses(c, Text("no-unread"))
  {
  }

  /** A conversation without a last-message time is never hidden by the date range. */
  lemma MissingTimeIgnoresDateRange(cal: Calendar, c: Conversation, query: string, tab: TypeTab, filters: FilterState, v: FilterValue)
    requires c.lastMessageTime.None?
    ensures ConversationMatches(cal, c, query, tab, filters["lastMessage" := v])
            == ConversationMatches(cal, c, query, tab, filters - {"lastMessage"})
  {
    assert Lookup(filters["lastMessage" := v], "online") == Lookup(filters - {"lastMessage"}, "online");
    assert Lookup(filters["lastMessage" := v], "unread") == Lookup(filters - {"lastMessage"}, "unread");
  }
}
