/** The conversation panel: the case-insensitive search over message texts,
    the summary line above the messages, what the panel lists, and the two
    scroll buttons. Scrolling itself and the DOM are left out; the scroll
    measurements are parameters. */
module ChatContainer {
  import opened Results
  import opened Text
  import opened App

  /** The filter test: the lower-cased content contains the lower-cased term. */
  predicate Mentions(m: Message, term: string) {
    Includes(Lower(m.content), Lower(term))
  }

  /** `conversation.filter(...)`: the messages that mention the term, in
      their original order. */
  function Matching(conversation: seq<Message>, term: string): (r: seq<Message>)
    ensures |r| <= |conversation|
    ensures forall m :: m in r ==> m in conversation && Mentions(m, term)
    ensures forall m :: m in conversation && Mentions(m, term) ==> m in r
    ensures r == [] <==> forall m :: m in conversation ==> !Mentions(m, term)
    decreases |conversation|
  {
    if conversation == [] then []
    else
      var rest := Matching(conversation[1..], term);
      assert forall m :: m in conversation[1..] ==> m in conversation;
      assert forall m :: m in conversation ==> m == conversation[0] || m in conversation[1..];
      if Mentions(conversation[0], term) then [conversation[0]] + rest else rest
  }

  /** The search effect: a term that trims to nothing gives no results. */
  function SearchResults(conversation: seq<Message>, term: string): (r: seq<Message>)
    ensures Trim(term) == [] ==> r == []
    ensures Trim(term) != [] ==> r == Matching(conversation, term)
  {
    if Trim(term) != [] then Matching(conversation, term) else []
  }

  /** What the panel lists: the results while the trimmed term is non-blank,
      else the whole conversation. */
  function FilteredConversation(conversation: seq<Message>, term: string): (r: seq<Message>)
    ensures Trim(term) == [] ==> r == conversation
    ensures Trim(term) != [] ==> r == SearchResults(conversation, term)
  {
    if Trim(term) != [] then SearchResults(conversation, term) else conversation
  }

  /** The summary line: hidden for an empty term; otherwise the number of
      results with a plural flag, or the no-match text. */
  datatype Summary = Found(count: nat, plural: bool) | NothingFound

  function SearchSummary(conversation: seq<Message>, term: string): (r: Option<Summary>)
    ensures r.None? <==> term == []
    ensures r.Some? && r.value.Found? ==>
      r.value.count == |SearchResults(conversation, term)| > 0 && (r.value.plural <==> r.value.count != 1)
    ensures r.Some? && r.value.NothingFound? ==> SearchResults(conversation, term) == []
  {
    if term == [] then None
    else
      var n := |SearchResults(conversation, term)|;
      if n > 0 then Some(Found(n, n != 1)) else Some(NothingFound)
  }

  /** The placeholder shown when the panel lists nothing. */
  datatype EmptyText = NoMatches | NothingYet

  function EmptyPanel(conversation: seq<Message>, term: string): (r: Option<EmptyText>)
    ensures r.Some? <==> FilteredConversation(conversation, term) == []
    ensures r.Some? ==> (r.value == NoMatches <==> term != [])
    ensures r == Some(NothingYet) <==> term == [] && conversation == []
    ensures r == Some(NoMatches) <==>
      && term != []
      && (Trim(term) == [] ==> conversation == [])
      && (Trim(term) != [] ==> forall m :: m in conversation ==> !Mentions(m, term))
  {
    if FilteredConversation(conversation, term) != [] then None
    else if term != [] then Some(NoMatches)
    else Some(NothingYet)
  }

  /** Filtering distributes over concatenation, so the results of a longer
      conversation extend those of its prefix. */
  lemma {:induction false} MatchingAppend(a: seq<Message>, b: seq<Message>, term: string)
    ensures Matching(a + b, term) == Matching(a, term) + Matching(b, term)
    decreases |a|
  {
    if a == [] {
      assert a + b == b;
    } else {
      assert (a + b)[0] == a[0];
      assert (a + b)[1..] == a[1..] + b;
      MatchingAppend(a[1..], b, term);
    }
  }

  /** A term of only white space lists every message, yet its summary line
      is shown and reports that nothing was found. */
  lemma BlankTermListsAllButFindsNothing(conversation: seq<Message>, term: string)
    requires term != [] && AllSpace(term)
    ensures FilteredConversation(conversation, term) == conversation
    ensures SearchSummary(conversation, term) == Some(NothingFound)
  {
  }

  /** The summary line as evidently intended: hidden unless the trimmed term
      is non-blank, like the listing, so that it always describes what the
      panel lists. */
  function TrimmedSearchSummary(conversation: seq<Message>, term: string): (r: Option<Summary>)
    ensures r.None? <==> Trim(term) == []
    ensures r.Some? ==> (r.value.NothingFound? <==> FilteredConversation(conversation, term) == [])
    ensures r.Some? && r.value.Found? ==>
      r.value.count == |FilteredConversation(conversation, term)| && (r.value.plural <==> r.value.count != 1)
  {
    if Trim(term) == [] then None else SearchSummary(conversation, term)
  }

  /** For a term of only white space the trimmed summary stays hidden where
      the summary as written reports that nothing was found; for any other
      term the two agree. */
  lemma TrimmedSummaryFixesBlankTerm(conversation: seq<Message>, term: string)
    ensures term != [] && AllSpace(term) ==>
      TrimmedSearchSummary(conversation, term) == None && SearchSummary(conversation, term) == Some(NothingFound)
    ensures Trim(term) != [] ==> TrimmedSearchSummary(conversation, term) == SearchSummary(conversation, term)
  {
    if term != [] && AllSpace(term) {
      BlankTermListsAllButFindsNothing(conversation, term);
    }
  }

  /** Filtering a single message keeps it exactly when it mentions the term;
      with `MatchingAppend` this pins `Matching` down as the order-keeping
      filter. */
  lemma MatchingSingle(m: Message, term: string)
    ensures Matching([m], term) == (if Mentions(m, term) then [m] else [])
  {
    assert [m][1..] == [];
  }

  /** A non-blank search lists exactly the messages that mention the term,
      in order: the listing's count is the number of mentions. */
  lemma SearchCountsMentions(conversation: seq<Message>, term: string)
    requires Trim(term) != []
    ensures |FilteredConversation(conversation, term)| == MentionCount(conversation, term)
  {
    MatchingCount(conversation, term);
  }

  function MentionCount(conversation: seq<Message>, term: string): nat
    decreases |conversation|
  {
    if conversation == [] then 0
    else (if Mentions(conversation[0], term) then 1 else 0) + MentionCount(conversation[1..], term)
  }

  lemma {:induction false} MatchingCount(conversation: seq<Message>, term: string)
    ensures |Matching(conversation, term)| == MentionCount(conversation, term)
    decreases |conversation|
  {
    if conversation != [] {
      MatchingCount(conversation[1..], term);
    }
  }

  /** The scroll-to-top button: more than five messages in the whole
      conversation, whatever the search lists. */
  predicate ScrollToTopShown(conversation: seq<Message>): (r: bool)
    ensures r <==> |conversation| >= 6
  {
    |conversation| > 5
  }

  /** The scroll-to-bottom button: the view is at least 100 pixels from the
      bottom of the scrolled content. */
  predicate ScrollToBottomShown(scrollTop: int, scrollHeight: int, clientHeight: int): (r: bool)
    ensures r <==> scrollTop + clientHeight + 100 <= scrollHeight
  {
    !(scrollHeight - scrollTop - clientHeight < 100)
  }

  /** Scrolling further up never hides the scroll-to-bottom button, and a
      growing conversation never hides the scroll-to-top button. */
  lemma ScrollButtonsMonotone(top1: int, top2: int, height: int, client: int, a: seq<Message>, b: seq<Message>)
    ensures top2 <= top1 && ScrollToBottomShown(top1, height, client) ==> ScrollToBottomShown(top2, height, client)
    ensures ScrollToTopShown(a) ==> ScrollToTopShown(a + b)
  {
  }
}
