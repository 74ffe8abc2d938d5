/**
 * The chat page: the keyword recommender that answers a message from the
 * catalog, the send guard, the queue of replies still to come, and the rule
 * that shows a line wrapped in "**" as bold text.
 */
module AIChatPage {
  import opened Wrappers
  import opened Strings
  import opened Seqs
  import opened Catalog
  import opened AppContext

  /** The word test `word.length > 2`. */
  const LongWord: string -> bool := (w: string) => |w| > 2

  /** `userWords`: the lower-cased message split on single spaces, short pieces dropped. */
  function Tokens(message: string): (r: seq<string>)
    ensures forall k :: 0 <= k < |r| ==> |r[k]| > 2 && ' ' !in r[k]
  {
    FilterMembers(Split(Lower(message), ' '), LongWord);
    Filter(Split(Lower(message), ' '), LongWord)
  }

  /**
   * A token is exactly a piece of the lower-cased message, between single
   * spaces, that is longer than two characters; tokens keep message order.
   */
  lemma TokensSpec(message: string)
    ensures var t := Tokens(message);
      && (forall w :: w in t <==> w in Split(Lower(message), ' ') && |w| > 2)
      && (forall k :: 0 <= k < |t| ==> |t[k]| > 2 && ' ' !in t[k])
      && IsSubsequence(t, Split(Lower(message), ' '))
      && forall w :: multiset(t)[w] == if |w| > 2 then multiset(Split(Lower(message), ' '))[w] else 0
  {
    var pieces := Split(Lower(message), ' ');
    FilterMembers(pieces, LongWord);
    FilterIsSubsequence(pieces, LongWord);
    FilterMultiset(pieces, LongWord);
    forall k | 0 <= k < |Tokens(message)| ensures ' ' !in Tokens(message)[k] {
      assert Tokens(message)[k] in pieces;
    }
  }

  /** The empty message and "ok" have no token: nothing in them is longer than two characters. */
  lemma ShortMessagesHaveNoTokens()
    ensures Tokens("") == []
    ensures Tokens("ok") == []
  {
    assert Lower("") == "";
    assert Split("", ' ') == [""];
    assert Filter([""], LongWord) == [] by {
      assert !LongWord("");
    }
    var ok := Lower("ok");
    assert ok == "ok";
    assert ok[1..] == "k" && "k"[1..] == "";
    assert Split("k", ' ') == ["k"];
    assert Split(ok, ' ') == ["ok"];
    assert Filter(["ok"], LongWord) == [] by {
      assert !LongWord("ok");
      assert ["ok"][1..] == [];
    }
  }

  /** `recipe.ingredients.join(' ').toLowerCase()`. */
  function IngredientText(r: Recipe): (text: string)
    ensures forall k :: 0 <= k < |r.ingredients| ==> Contains(text, Lower(r.ingredients[k]))
  {
    JoinedLowerHasEveryPiece(r.ingredients, " ");
    Lower(Join(r.ingredients, " "))
  }

  /** Every piece, lower-cased, occurs in the lower-cased joined string. */
  lemma JoinedLowerHasEveryPiece(pieces: seq<string>, sep: string)
    ensures forall k :: 0 <= k < |pieces| ==> Contains(Lower(Join(pieces, sep)), Lower(pieces[k]))
  {
    forall k | 0 <= k < |pieces| ensures Contains(Lower(Join(pieces, sep)), Lower(pieces[k])) {
      JoinContainsPiece(pieces, sep, k);
      ContainsLower(Join(pieces, sep), pieces[k]);
    }
  }

  /** Some token occurs in the recipe's ingredient text. */
  predicate IsCandidate(r: Recipe, tokens: seq<string>)
    ensures IsCandidate(r, tokens) ==> tokens != []
  {
    exists k | 0 <= k < |tokens| :: Contains(IngredientText(r), tokens[k])
  }

  /**
   * A recipe is a candidate as soon as one token occurs in one of its
   * ingredients, ignoring case.
   */
  lemma IngredientWordMakesCandidate(r: Recipe, tokens: seq<string>, i: nat, k: nat)
    requires i < |r.ingredients| && k < |tokens|
    requires Contains(Lower(r.ingredients[i]), tokens[k])
    ensures IsCandidate(r, tokens)
  {
    ContainsTransitive(IngredientText(r), Lower(r.ingredients[i]), tokens[k]);
  }

  /** `IsCandidate` as the callback handed to `filter`. */
  function CandidateFor(tokens: seq<string>): Recipe -> bool {
    (r: Recipe) => IsCandidate(r, tokens)
  }

  /**
   * `recommendations[0]`: the first recipe, in catalog order, that is a
   * candidate for the message; `None` when there is none.
   */
  function Recommend(message: string, catalog: seq<Recipe>): (r: Option<Recipe>)
    ensures r.Some? ==> exists k :: 0 <= k < |catalog| && catalog[k] == r.value
                                  && IsCandidate(r.value, Tokens(message))
                                  && forall j :: 0 <= j < k ==> !IsCandidate(catalog[j], Tokens(message))
    ensures r.None? <==> forall k :: 0 <= k < |catalog| ==> !IsCandidate(catalog[k], Tokens(message))
  {
    var test := CandidateFor(Tokens(message));
    var recommendations := Filter(catalog, test);
    FilterHeadIsFirst(catalog, test);
    if |recommendations| > 0 then Some(recommendations[0]) else None
  }

  /** The fixed pieces of the reply that recommends a recipe, in order. */
  const FoundIntro := "Based on your ingredients, " + "I recommend making **"
  const NameEnd := "**! \U{1F372}\n\n"
  const CookTimeLabel := "\n\n**Cook time:** "
  const ServesLabel := "\n**Serves:** "
  const DifficultyLabel := " people\n**Difficulty:** "
  const Closing := "\n\nThis recipe would be perfect with what you have. Would you like me to suggest any alternatives or help you with something else?"

  /** The template reply for a chosen recipe, as the list of its parts. */
  function ReplyParts(r: Recipe): seq<string> {
    [FoundIntro, r.name, NameEnd, r.description, CookTimeLabel, r.cookTime, ServesLabel,
     IntToString(r.servings), DifficultyLabel, r.difficulty, Closing]
  }

  /** The template reply for a chosen recipe. */
  function FoundReply(r: Recipe): (reply: string)
    ensures |FoundIntro| <= |reply| && reply[..|FoundIntro|] == FoundIntro
  {
    Join(ReplyParts(r), "")
  }

  /** The fixed pieces of the reply when no recipe is a candidate, in order. */
  const FallbackIntro :=
    "I couldn't find a perfect match " + "for your ingredients, but here are some popular Nigerian recipes you might enjoy:\n\n\U{1F372} **"
  const JollofLine := "** - A classic one-pot dish\n\U{1F963} **"
  const EgusiLine := "** - Rich melon seed soup\n\U{1F356} **"
  const FallbackClosing :=
    "** - Spicy grilled meat skewers\n\n" + "Tell me more about what you have available, and I'll give you a better recommendation!"

  /** The fixed reply when no recipe is a candidate. */
  const FallbackReply :=
    FallbackIntro + "Jollof Rice" + JollofLine + "Egusi Soup" + EgusiLine + "Suya" + FallbackClosing

  /** The fallback suggests three popular recipes by name. */
  lemma FallbackSuggestsRecipes()
    ensures Contains(FallbackReply, "Jollof Rice")
    ensures Contains(FallbackReply, "Egusi Soup")
    ensures Contains(FallbackReply, "Suya")
  {
    var a := FallbackIntro + "Jollof Rice";
    ContainsTrivial("Jollof Rice");
    ContainsInSuffix(FallbackIntro, "Jollof Rice", "Jollof Rice");
    ContainsInPrefix(a, JollofLine, "Jollof Rice");
    var b := a + JollofLine + "Egusi Soup";
    ContainsTrivial("Egusi Soup");
    ContainsInSuffix(a + JollofLine, "Egusi Soup", "Egusi Soup");
    ContainsInPrefix(a + JollofLine, "Egusi Soup", "Jollof Rice");
    ContainsInPrefix(b, EgusiLine, "Jollof Rice");
    ContainsInPrefix(b, EgusiLine, "Egusi Soup");
    var c := b + EgusiLine + "Suya";
    ContainsTrivial("Suya");
    ContainsInSuffix(b + EgusiLine, "Suya", "Suya");
    ContainsInPrefix(b + EgusiLine, "Suya", "Jollof Rice");
    ContainsInPrefix(b + EgusiLine, "Suya", "Egusi Soup");
    ContainsInPrefix(c, FallbackClosing, "Jollof Rice");
    ContainsInPrefix(c, FallbackClosing, "Egusi Soup");
    ContainsInPrefix(c, FallbackClosing, "Suya");
  }

  /** `generateAIResponse(message)`: the template for the recommendation, or the fallback. */
  function GenerateAIResponse(message: string, catalog: seq<Recipe>): (reply: string)
    ensures reply == FallbackReply <==> Recommend(message, catalog).None?
    ensures Recommend(message, catalog).Some? ==> Contains(reply, Recommend(message, catalog).value.name)
  {
    match Recommend(message, catalog)
    case Some(r) =>
      FoundReplyEmbedsRecipe(r);
      FoundReply(r)
    case None => FallbackReply
  }

  /**
   * The recommending reply carries the chosen recipe's name, description,
   * cook time, servings and difficulty, and is never the fallback text.
   */
  lemma FoundReplyEmbedsRecipe(r: Recipe)
    ensures Contains(FoundReply(r), r.name)
    ensures Contains(FoundReply(r), r.description)
    ensures Contains(FoundReply(r), r.cookTime)
    ensures Contains(FoundReply(r), IntToString(r.servings))
    ensures Contains(FoundReply(r), r.difficulty)
    ensures FoundReply(r) != FallbackReply
  {
    var parts := ReplyParts(r);
    JoinContainsPiece(parts, "", 1);
    JoinContainsPiece(parts, "", 3);
    JoinContainsPiece(parts, "", 5);
    JoinContainsPiece(parts, "", 7);
    JoinContainsPiece(parts, "", 9);
    assert FoundReply(r)[0] == FoundIntro[0] == 'B';
    assert FallbackReply[0] == 'I';
  }

  /**
   * The reply is the fallback exactly when no recipe of the catalog is a
   * candidate; otherwise it is the template for the first candidate.
   */
  lemma ReplyIsFallbackIffNoCandidate(message: string, catalog: seq<Recipe>)
    ensures GenerateAIResponse(message, catalog) == FallbackReply
        <==> forall k :: 0 <= k < |catalog| ==> !IsCandidate(catalog[k], Tokens(message))
    ensures Recommend(message, catalog).Some? ==>
      GenerateAIResponse(message, catalog) == FoundReply(Recommend(message, catalog).value)
  {
  }

  /** A message without a token longer than two characters always gets the fallback. */
  lemma NoTokensGetFallback(message: string, catalog: seq<Recipe>)
    requires Tokens(message) == []
    ensures GenerateAIResponse(message, catalog) == FallbackReply
  {
    ReplyIsFallbackIffNoCandidate(message, catalog);
  }

  /** How one line of a message is shown. */
  datatype Line = Bold(text: string) | Plain(text: string)

  /** `line.startsWith('**')`. */
  predicate StartsWithMarker(line: string) {
    |line| >= 2 && line[..2] == "**"
  }

  /** `line.endsWith('**')`. */
  predicate EndsWithMarker(line: string) {
    |line| >= 2 && line[|line| - 2..] == "**"
  }

  /**
   * The display rule for one line: a line that starts and ends with "**" is
   * shown bold without its first two and last two characters (`slice(2, -2)`,
   * which is "" for "**" and "***"); every other line is shown as it is.
   */
  function RenderLine(line: string): (d: Line)
    ensures d.Bold? <==> StartsWithMarker(line) && EndsWithMarker(line)
    ensures d.Plain? ==> d.text == line
    ensures d.Bold? && |line| >= 4 ==> "**" + d.text + "**" == line
    ensures d.Bold? && |line| < 4 ==> d.text == ""
  {
    if StartsWithMarker(line) && EndsWithMarker(line) then
      if |line| >= 4 then
        assert line == line[..2] + line[2..|line| - 2] + line[|line| - 2..];
        Bold(line[2..|line| - 2])
      else Bold("")
    else Plain(line)
  }

  /** `content.split('\n').map(...)`: the message as shown, line by line. */
  function RenderContent(content: string): (r: seq<Line>)
    ensures |r| == |Split(content, '\n')|
    ensures forall k :: 0 <= k < |r| ==> r[k] == RenderLine(Split(content, '\n')[k])
    ensures forall k :: 0 <= k < |r| && r[k].Plain? ==> r[k].text == Split(content, '\n')[k]
  {
    var lines := Split(content, '\n');
    seq(|lines|, k requires 0 <= k < |lines| => RenderLine(lines[k]))
  }

  /** The texts of the shown lines. */
  function Texts(lines: seq<Line>): (r: seq<string>)
    ensures |r| == |lines|
    ensures forall k :: 0 <= k < |lines| ==> r[k] == lines[k].text
  {
    seq(|lines|, k requires 0 <= k < |lines| => lines[k].text)
  }

  /**
   * A message none of whose lines is wrapped in "**" is shown verbatim: its
   * shown lines are all plain and join back, with newlines, to the message.
   */
  lemma PlainContentShownVerbatim(content: string)
    requires forall k :: 0 <= k < |Split(content, '\n')| ==>
      !(StartsWithMarker(Split(content, '\n')[k]) && EndsWithMarker(Split(content, '\n')[k]))
    ensures forall k :: 0 <= k < |RenderContent(content)| ==> RenderContent(content)[k].Plain?
    ensures Join(Texts(RenderContent(content)), "\n") == content
  {
    assert Texts(RenderContent(content)) == Split(content, '\n');
  }

  /** The contents of the user's messages in the log, oldest first. */
  function UserTexts(log: seq<Message>): seq<string> {
    if log == [] then []
    else
      var last := log[|log| - 1];
      UserTexts(log[..|log| - 1]) + (if last.role == User then [last.content] else [])
  }

  /** The number of replies in the log. */
  function ReplyCount(log: seq<Message>): nat {
    if log == [] then 0
    else ReplyCount(log[..|log| - 1]) + (if log[|log| - 1].role == Ai then 1 else 0)
  }

  /**
   * Replies follow sends in order: the messages still waiting for a reply
   * are exactly the user's messages after the first `ReplyCount(log)` ones.
   */
  ghost predicate InStep(log: seq<Message>, pending: seq<string>) {
    ReplyCount(log) <= |UserTexts(log)| && pending == UserTexts(log)[ReplyCount(log)..]
  }

  /** The chat page's own state: the input box, the typing flag and the replies still to come. */
  class ChatView {
    var input: string
    var isTyping: bool
    /** The texts whose reply timers have not fired yet, oldest first. */
    var pending: seq<string>

    constructor ()
      ensures input == "" && !isTyping && pending == []
    {
      input := "";
      isTyping := false;
      pending := [];
    }

    /** Typing into the input box, or picking one of the suggested questions. */
    method SetInput(text: string)
      modifies this
      ensures input == text && isTyping == old(isTyping) && pending == old(pending)
    {
      input := text;
    }

    /**
     * `handleSendMessage`: nothing happens when the trimmed input is empty;
     * otherwise the input, untrimmed, is appended to the log as one user
     * message, the box is cleared, the typing flag is raised and a reply to
     * that text is scheduled.
     */
    method SendMessage(store: Store, now: int)
      modifies this, store
      ensures Trim(old(input)) == "" ==>
        && store.chatHistory == old(store.chatHistory)
        && input == old(input) && isTyping == old(isTyping) && pending == old(pending)
      ensures Trim(old(input)) != "" ==>
        && store.chatHistory == AppendMessage(old(store.chatHistory), Draft(User, old(input)), now)
        && input == "" && isTyping && pending == old(pending) + [old(input)]
      ensures InStep(old(store.chatHistory), old(pending)) ==> InStep(store.chatHistory, pending)
      ensures store.shoppingList == old(store.shoppingList)
    {
      if Trim(input) != "" {
        ghost var log := store.chatHistory;
        store.AddChatMessage(Draft(User, input), now);
        assert store.chatHistory[..|log|] == log;
        pending := pending + [input];
        input := "";
        isTyping := true;
      }
    }

    /** The send button, which is disabled while the input is blank or a reply is being typed. */
    method ClickSend(store: Store, now: int)
      modifies this, store
      ensures old(isTyping) || Trim(old(input)) == "" ==>
        && store.chatHistory == old(store.chatHistory)
        && input == old(input) && isTyping == old(isTyping) && pending == old(pending)
      ensures !old(isTyping) && Trim(old(input)) != "" ==>
        && store.chatHistory == AppendMessage(old(store.chatHistory), Draft(User, old(input)), now)
        && input == "" && isTyping && pending == old(pending) + [old(input)]
      ensures InStep(old(store.chatHistory), old(pending)) ==> InStep(store.chatHistory, pending)
      ensures store.shoppingList == old(store.shoppingList)
    {
      if !(Trim(input) == "" || isTyping) {
        SendMessage(store, now);
      }
    }

    /**
     * `handleKeyPress`: Enter without Shift sends, whether or not a reply is
     * being typed; any other key changes nothing here.
     */
    method KeyPress(key: string, shift: bool, store: Store, now: int)
      modifies this, store
      ensures key == "Enter" && !shift && Trim(old(input)) != "" ==>
        && store.chatHistory == AppendMessage(old(store.chatHistory), Draft(User, old(input)), now)
        && input == "" && isTyping && pending == old(pending) + [old(input)]
      ensures !(key == "Enter" && !shift) || Trim(old(input)) == "" ==>
        && store.chatHistory == old(store.chatHistory)
        && input == old(input) && isTyping == old(isTyping) && pending == old(pending)
      ensures InStep(old(store.chatHistory), old(pending)) ==> InStep(store.chatHistory, pending)
      ensures store.shoppingList == old(store.shoppingList)
    {
      if key == "Enter" && !shift {
        SendMessage(store, now);
      }
    }

    /**
     * The reply timer fires: the reply generated for the oldest pending text
     * is appended to the log and the typing flag is lowered, even when later
     * replies are still due. Under `InStep` the reply answers the earliest
     * user message that has none yet.
     */
    method ReplyDue(store: Store, catalog: seq<Recipe>, now: int)
      requires pending != []
      modifies this, store
      ensures store.chatHistory ==
        AppendMessage(old(store.chatHistory), Draft(Ai, GenerateAIResponse(old(pending[0]), catalog)), now)
      ensures pending == old(pending[1..]) && input == old(input) && !isTyping
      ensures InStep(old(store.chatHistory), old(pending)) ==>
        && InStep(store.chatHistory, pending)
        && old(pending[0]) == UserTexts(old(store.chatHistory))[ReplyCount(old(store.chatHistory))]
      ensures store.shoppingList == old(store.shoppingList)
    {
      ghost var log := store.chatHistory;
      store.AddChatMessage(Draft(Ai, GenerateAIResponse(pending[0], catalog)), now);
      assert store.chatHistory[..|log|] == log;
      pending := pending[1..];
      isTyping := false;
    }
  }
}
