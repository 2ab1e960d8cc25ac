/**
 The rule-based responder of the chat route: the last message's text is
 lowercased and matched against a fixed, ordered chain of substring
 predicates; the first predicate that holds picks a canned reply, and a
 generic reply follows when none holds.
 */
module Responder {
  import opened Strings

  /** Which canned reply is given. The fallback carries whether the text asks "how". */
  datatype Category = Capabilities | Story | Quantum | AppIdeas | Greeting | Thanks | Fallback(how: bool)

  /* ---------------------------------------------------------------------- */
  /* The dispatch chain as the route writes it                               */
  /* ---------------------------------------------------------------------- */

  /** The `if … else if …` chain over the already lowercased input `u`. */
  function Dispatch(u: string): (c: Category)
    ensures c.Fallback? ==> (c.how <==> Contains(u, HowKeyword))
  {
    if Contains(u, "what can you") || Contains(u, "capabilities") || Contains(u, "help me with") then
      Capabilities
    else if Contains(u, "story") || Contains(u, "write") then
      Story
    else if Contains(u, "quantum") then
      Quantum
    else if Contains(u, "app idea") || Contains(u, "brainstorm") then
      AppIdeas
    else if Contains(u, "hello") || Contains(u, "hi ") || Contains(u, "hey") then
      Greeting
    else if Contains(u, "thank") then
      Thanks
    else
      Fallback(Contains(u, "how"))
  }

  /** The category of a message text: the first rule of the table that fires on its lowercased form. */
  function Classify(content: string): (c: Category)
    ensures c == ByRules(Lower(content))
  {
    DispatchFollowsRules(Lower(content));
    Dispatch(Lower(content))
  }

  /* ---------------------------------------------------------------------- */
  /* Reference definition: a priority-ordered rule table                     */
  /* ---------------------------------------------------------------------- */

  /** A rule fires when the input contains any one of its keywords. */
  datatype Rule = Rule(keywords: seq<string>, category: Category)

  predicate Fires(rule: Rule, u: string) {
    exists k :: k in rule.keywords && Contains(u, k)
  }

  /** The rules in priority order; every keyword is lower-case. */
  const Rules: seq<Rule> := [
    Rule(["what can you", "capabilities", "help me with"], Capabilities),
    Rule(["story", "write"], Story),
    Rule(["quantum"], Quantum),
    Rule(["app idea", "brainstorm"], AppIdeas),
    Rule(["hello", "hi ", "hey"], Greeting),
    Rule(["thank"], Thanks)
  ]

  /** The keyword that only varies the fallback's wording. */
  const HowKeyword: string := "how"

  /** The index of the first rule at or after `from` that fires, or `|rules|` when none does. */
  function FirstFiring(rules: seq<Rule>, u: string, from: nat): (i: nat)
    requires from <= |rules|
    ensures from <= i <= |rules|
    ensures i < |rules| ==> Fires(rules[i], u)
    ensures forall j :: from <= j < i ==> !Fires(rules[j], u)
    decreases |rules| - from
  {
    if from == |rules| then from
    else if Fires(rules[from], u) then from
    else FirstFiring(rules, u, from + 1)
  }

  /** First match wins over the rule table; the fallback otherwise. */
  function ByRules(u: string): Category {
    var i := FirstFiring(Rules, u, 0);
    if i < |Rules| then Rules[i].category else Fallback(Contains(u, HowKeyword))
  }

  /** The categories of the table are pairwise distinct and none is a fallback. */
  lemma RuleCategoriesDistinct()
    ensures forall i, j :: 0 <= i < j < |Rules| ==> Rules[i].category != Rules[j].category
    ensures forall i :: 0 <= i < |Rules| ==> !Rules[i].category.Fallback?
  {
  }

  /** Whether each rule fires, spelled out keyword by keyword. */
  lemma FiresUnfolded(u: string)
    ensures Fires(Rules[0], u) <==> Contains(u, "what can you") || Contains(u, "capabilities") || Contains(u, "help me with")
    ensures Fires(Rules[1], u) <==> Contains(u, "story") || Contains(u, "write")
    ensures Fires(Rules[2], u) <==> Contains(u, "quantum")
    ensures Fires(Rules[3], u) <==> Contains(u, "app idea") || Contains(u, "brainstorm")
    ensures Fires(Rules[4], u) <==> Contains(u, "hello") || Contains(u, "hi ") || Contains(u, "hey")
    ensures Fires(Rules[5], u) <==> Contains(u, "thank")
  {
    assert Rules[0].keywords == ["what can you", "capabilities", "help me with"];
    assert Rules[1].keywords == ["story", "write"];
    assert Rules[2].keywords == ["quantum"];
    assert Rules[3].keywords == ["app idea", "brainstorm"];
    assert Rules[4].keywords == ["hello", "hi ", "hey"];
    assert Rules[5].keywords == ["thank"];
  }

  /** The route's `if` chain computes exactly first-match-wins over the rule table. */
  lemma DispatchFollowsRules(u: string)
    ensures Dispatch(u) == ByRules(u)
  {
    FiresUnfolded(u);
    var i := FirstFiring(Rules, u, 0);
    assert i < |Rules| ==> Fires(Rules[i], u);
    if i == 0 {
    } else if i == 1 {
      assert !Fires(Rules[0], u);
    } else if i == 2 {
      assert !Fires(Rules[0], u) && !Fires(Rules[1], u);
    } else if i == 3 {
      assert !Fires(Rules[0], u) && !Fires(Rules[1], u) && !Fires(Rules[2], u);
    } else if i == 4 {
      assert !Fires(Rules[0], u) && !Fires(Rules[1], u) && !Fires(Rules[2], u) && !Fires(Rules[3], u);
    } else if i == 5 {
      assert !Fires(Rules[0], u) && !Fires(Rules[1], u) && !Fires(Rules[2], u) && !Fires(Rules[3], u);
      assert !Fires(Rules[4], u);
    } else {
      assert !Fires(Rules[0], u) && !Fires(Rules[1], u) && !Fires(Rules[2], u) && !Fires(Rules[3], u);
      assert !Fires(Rules[4], u) && !Fires(Rules[5], u);
    }
  }

  /* ---------------------------------------------------------------------- */
  /* Properties of the classification                                        */
  /* ---------------------------------------------------------------------- */

  /** Rule `i` is chosen exactly when it fires and every earlier rule fails. */
  lemma ChosenIffFirstToFire(u: string, i: nat)
    requires i < |Rules|
    ensures Dispatch(u) == Rules[i].category <==>
              Fires(Rules[i], u) && forall j :: 0 <= j < i ==> !Fires(Rules[j], u)
  {
    DispatchFollowsRules(u);
    RuleCategoriesDistinct();
    var f := FirstFiring(Rules, u, 0);
    if Fires(Rules[i], u) && forall j :: 0 <= j < i ==> !Fires(Rules[j], u) {
      assert f == i;
    }
  }

  /** The fallback is given exactly when no rule fires, and it only records whether "how" occurs. */
  lemma FallbackIffNothingFires(u: string)
    ensures Dispatch(u).Fallback? <==> forall j :: 0 <= j < |Rules| ==> !Fires(Rules[j], u)
    ensures Dispatch(u).Fallback? ==> (Dispatch(u).how <==> Contains(u, "how"))
  {
    DispatchFollowsRules(u);
    RuleCategoriesDistinct();
  }

  /** Asking about capabilities wins whatever else the text mentions. */
  lemma CapabilitiesWin(content: string)
    requires || Contains(Lower(content), "what can you")
             || Contains(Lower(content), "capabilities")
             || Contains(Lower(content), "help me with")
    ensures Classify(content) == Capabilities
  {
  }

  /** Only the lowercased text matters: texts equal up to ASCII case get the same category. */
  lemma ClassifyIgnoresCase(s: string, t: string)
    requires Lower(s) == Lower(t)
    ensures Classify(s) == Classify(t)
    ensures Classify(s) == Classify(Lower(s))
    ensures Classify(Upper(s)) == Classify(s)
  {
    LowerIgnoresCase(s);
  }

  /** Keyword tests are substring tests, not word tests: "they" holds "hey" and so is a greeting. */
  lemma TheyIsGreeting()
    ensures Dispatch("they") == Greeting
  {
    assert OccursAt("they", "hey", 1);
    MissingCharRulesOut("they", "what can you", 0);
    MissingCharRulesOut("they", "capabilities", 0);
    MissingCharRulesOut("they", "help me with", 2);
    MissingCharRulesOut("they", "story", 0);
    MissingCharRulesOut("they", "write", 0);
    MissingCharRulesOut("they", "quantum", 0);
    MissingCharRulesOut("they", "app idea", 0);
    MissingCharRulesOut("they", "brainstorm", 0);
  }

  /** "show" holds "how", so a text that asks nothing gets the "how" wording of the fallback. */
  lemma ShowMeAsksHow()
    ensures Dispatch("show me") == Fallback(true)
  {
    assert OccursAt("show me", "how", 1);
    MissingCharRulesOut("show me", "what can you", 3);
    MissingCharRulesOut("show me", "capabilities", 0);
    MissingCharRulesOut("show me", "help me with", 2);
    MissingCharRulesOut("show me", "story", 1);
    MissingCharRulesOut("show me", "write", 1);
    MissingCharRulesOut("show me", "quantum", 0);
    MissingCharRulesOut("show me", "app idea", 0);
    MissingCharRulesOut("show me", "brainstorm", 0);
    MissingCharRulesOut("show me", "hello", 2);
    MissingCharRulesOut("show me", "hi ", 1);
    MissingCharRulesOut("show me", "hey", 2);
    MissingCharRulesOut("show me", "thank", 0);
  }

  /** "hi" counts as a greeting only when a space follows it, so a trailing "hi" adds no greeting. */
  lemma TrailingHiIsNoGreeting(p: string)
    requires !Contains(p, "hi ")
    ensures !Contains(p + "hi", "hi ")
  {
    var w := p + "hi";
    forall i: nat | i <= |w|
      ensures !OccursAt(w, "hi ", i)
    {
      if i + 3 <= |p| {
        assert w[i..i + 3] == p[i..i + 3];
        assert !OccursAt(p, "hi ", i);
      } else if i + 3 <= |w| {
        assert w[|p|] == 'h' && w[|p| + 1] == 'i';
        assert i + 2 == |p| || i + 2 == |p| + 1;
        assert w[i..i + 3][2] == w[i + 2];
      }
    }
  }

  /** A later rule loses to an earlier one: writing about quantum gets the story. */
  lemma StoryBeforeQuantum()
    ensures Dispatch("write about quantum") == Story
  {
    var u := "write about quantum";
    assert OccursAt(u, "write", 0);
    MissingCharRulesOut(u, "what can you", 9);
    MissingCharRulesOut(u, "capabilities", 0);
    MissingCharRulesOut(u, "help me with", 2);
  }

  /** A greeting without any earlier keyword gets the greeting. */
  lemma HelloThere()
    ensures Classify("Hello there!") == Greeting
  {
    assert Lower("Hello there!") == "hello there!";
    HelloThereNoEarlierRule();
  }

  lemma HelloThereNoEarlierRule()
    ensures Dispatch("hello there!") == Greeting
  {
    var u := "hello there!";
    assert OccursAt(u, "hello", 0);
    MissingCharRulesOut(u, "what can you", 0);
    MissingCharRulesOut(u, "capabilities", 0);
    MissingCharRulesOut(u, "help me with", 5);
    MissingCharRulesOut(u, "story", 0);
    MissingCharRulesOut(u, "write", 0);
    MissingCharRulesOut(u, "quantum", 0);
    MissingCharRulesOut(u, "app idea", 1);
    MissingCharRulesOut(u, "brainstorm", 0);
  }

  /** Brainstorming app ideas reaches the fourth rule: "brainstorm" holds "stor" but not "story". */
  lemma BrainstormAppIdeas()
    ensures Classify("Can you brainstorm app ideas?") == AppIdeas
  {
    assert Lower("Can you brainstorm app ideas?") == "can you brainstorm app ideas?";
    BrainstormNoEarlierRule();
  }

  lemma BrainstormNoEarlierRule()
    ensures Dispatch("can you brainstorm app ideas?") == AppIdeas
  {
    var u := "can you brainstorm app ideas?";
    BrainstormOccurs();
    MissingCharRulesOut(u, "what can you", 0);
    MissingCharRulesOut(u, "capabilities", 6);
    MissingCharRulesOut(u, "help me with", 0);
    BrainstormIsNoStory();
    MissingCharRulesOut(u, "write", 0);
    MissingCharRulesOut(u, "quantum", 0);
  }

  lemma BrainstormOccurs()
    ensures Contains("can you brainstorm app ideas?", "brainstorm")
  {
    assert "can you brainstorm app ideas?" == "can you " + "brainstorm" + " app ideas?";
    ContainsTrivial("brainstorm");
    ContainsInContext("can you ", "brainstorm", " app ideas?", "brainstorm");
  }

  lemma BrainstormIsNoStory()
    ensures !Contains("can you brainstorm app ideas?", "story")
  {
    MissingPairRulesOut("can you brainstorm app ideas?", "story", 3);
  }

  /** A trailing "hi" alone is not a greeting; the text falls back. */
  lemma TrailingHiFallsBack()
    ensures Dispatch("oh hi") == Fallback(false)
  {
    var u := "oh hi";
    assert u == "oh " + "hi";
    MissingCharRulesOut("oh ", "hi ", 1);
    TrailingHiIsNoGreeting("oh ");
    MissingCharRulesOut(u, "what can you", 0);
    MissingCharRulesOut(u, "capabilities", 0);
    MissingCharRulesOut(u, "help me with", 1);
    MissingCharRulesOut(u, "story", 0);
    MissingCharRulesOut(u, "write", 0);
    MissingCharRulesOut(u, "quantum", 0);
    MissingCharRulesOut(u, "app idea", 0);
    MissingCharRulesOut(u, "brainstorm", 0);
    MissingCharRulesOut(u, "hello", 1);
    MissingCharRulesOut(u, "hey", 1);
    MissingCharRulesOut(u, "thank", 0);
    MissingCharRulesOut(u, "how", 2);
  }

  /* ---------------------------------------------------------------------- */
  /* Canned replies                                                          */
  /* ---------------------------------------------------------------------- */

  /**
   Each canned reply is represented by its opening words; the fallback by
   its text up to and including the clause that varies.
   */
  const CapabilitiesReply: string := "I'm an AI agent that can help you with:"
  const StoryReply: string := "Here's a short story for you:"
  const QuantumReply: string := "**Quantum Computing - Simplified:**"
  const AppIdeasReply: string := "Let's brainstorm some innovative app ideas! \U{1F680}"
  const GreetingReply: string := "Hello! \U{1F44B} I'm your AI agent, ready to assist you."
  const ThanksReply: string := "You're very welcome! \U{1F60A}"
  const FallbackOpening: string :=
    "That's an interesting question! While I'm a demonstration AI agent, I can help you think through this topic.\n\nHere's my perspective: "
  const HowClause: string := "To approach this, I would break it down into steps and consider the key factors involved."
  const OtherClause: string := "This topic has multiple angles worth exploring."

  /** The reply text of a category. */
  function Reply(c: Category): (text: string)
    ensures text != []
    ensures c.Fallback? ==> |FallbackOpening| < |text| && text[..|FallbackOpening|] == FallbackOpening
  {
    match c
    case Capabilities => CapabilitiesReply
    case Story => StoryReply
    case Quantum => QuantumReply
    case AppIdeas => AppIdeasReply
    case Greeting => GreetingReply
    case Thanks => ThanksReply
    case Fallback(how) => FallbackOpening + (if how then HowClause else OtherClause)
  }

  /** Different categories get different replies, so the reply tells which rule answered. */
  lemma ReplyInjective(a: Category, b: Category)
    ensures Reply(a) == Reply(b) ==> a == b
  {
  }
}
