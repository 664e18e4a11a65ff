/** QueryClassifier of src/utility.py: the rule-based decision whether a chat
    message needs document retrieval, and the canned reply for messages that do not. */
module QueryClassifier {
  import opened Wrappers
  import opened Text

  /** The five simple-intent patterns, each the alternatives of one \b(...)\b group:
      greetings, thanks, farewells, acknowledgments, yes/no. */
  const SimplePatterns: seq<seq<string>> := [
    ["hi", "hello", "hey", "greetings", "good morning", "good evening", "good afternoon"],
    ["thank you", "thanks", "thx", "appreciate it"],
    ["bye", "goodbye", "see you", "take care"],
    ["ok", "okay", "got it", "understood", "alright", "sure"],
    ["yes", "yeah", "yep", "no", "nope"]
  ]

  /** Terms whose presence anywhere in the message, even inside another word, triggers retrieval. */
  const MedicalKeywords: seq<string> := [
    "symptom", "treatment", "disease", "diagnosis", "medicine", "medication", "cure",
    "pain", "fever", "infection", "doctor", "hospital", "prescription", "side effect",
    "dosage", "therapy", "vaccine", "surgery", "condition", "blood", "pressure",
    "diabetes", "cancer", "heart", "lung", "kidney", "test", "scan", "mri", "x-ray",
    "injury", "allergy", "chronic", "acute", "disorder", "illness", "sick", "health"
  ]

  const QuestionWords: seq<string> := [
    "what", "how", "why", "when", "where", "which", "who", "can", "should",
    "is", "are", "does", "do", "could", "would", "will"
  ]

  const GreetingReply := "Hello! I'm your medical assistant. I can help answer questions about symptoms, treatments, medications, and general health information. How can I assist you today?"
  const ThanksReply := "You're very welcome! If you have any other health-related questions, feel free to ask. I'm here to help!"
  const GoodbyeReply := "Goodbye! Take care of your health. Feel free to return anytime you have questions. Stay well!"
  const AcknowledgmentReply := "Is there anything else you'd like to know about your health or medical concerns?"
  const YesNoReply := "Could you please provide more details about your question? I'm here to help with any health-related information you need."
  const FallbackReply := "I'm here to help with medical and health-related questions. Could you please elaborate on what you'd like to know?"

  /** The reply for each pattern group, in the order of SimplePatterns. */
  const PatternReplies: seq<string> :=
    [GreetingReply, ThanksReply, GoodbyeReply, AcknowledgmentReply, YesNoReply]

  datatype Reason =
    | SimpleGreeting
    | MedicalKeywordDetected
    | QuestionDetected
    | SingleWord
    | SubstantialQuery
    | DefaultNoRetrieval
  {
    /** The reason string the classifier returns. */
    function Tag(): string {
      match this
      case SimpleGreeting => "simple_greeting"
      case MedicalKeywordDetected => "medical_keyword_detected"
      case QuestionDetected => "question_detected"
      case SingleWord => "single_word"
      case SubstantialQuery => "substantial_query"
      case DefaultNoRetrieval => "default_no_retrieval"
    }

    /** The reasons that come with a positive retrieval decision. */
    predicate CallsForRetrieval() {
      MedicalKeywordDetected? || QuestionDetected? || SubstantialQuery?
    }
  }

  datatype Classification = Classification(needsRetrieval: bool, reason: Reason)

  /** query.lower().strip() */
  function Normalize(query: string): string {
    Strip(Lower(query))
  }

  /** query.lower().strip().split() */
  function Words(query: string): seq<string> {
    Split(Normalize(query))
  }

  function WordCount(query: string): nat {
    |Words(query)|
  }

  /** re.search(SIMPLE_PATTERNS[k], q) */
  predicate PatternMatches(q: string, k: nat)
    requires k < |SimplePatterns|
  {
    Search(q, SimplePatterns[k])
  }

  function FirstMatchFrom(q: string, k: nat): (r: Option<nat>)
    requires k <= |SimplePatterns|
    ensures r.Some? ==>
      && k <= r.value < |SimplePatterns|
      && PatternMatches(q, r.value)
      && forall j :: k <= j < r.value ==> !PatternMatches(q, j)
    ensures r.None? ==> forall j :: k <= j < |SimplePatterns| ==> !PatternMatches(q, j)
    decreases |SimplePatterns| - k
  {
    if k == |SimplePatterns| then None
    else if PatternMatches(q, k) then Some(k)
    else FirstMatchFrom(q, k + 1)
  }

  /** The first simple pattern, in list order, that the normalized text matches. */
  function FirstMatchingPattern(q: string): (r: Option<nat>)
    ensures r.Some? ==>
      && r.value < |SimplePatterns|
      && PatternMatches(q, r.value)
      && forall j :: 0 <= j < r.value ==> !PatternMatches(q, j)
    ensures r.None? ==> forall j :: 0 <= j < |SimplePatterns| ==> !PatternMatches(q, j)
  {
    FirstMatchFrom(q, 0)
  }

  /** Some medical keyword is a substring of q. */
  predicate HasMedicalKeyword(q: string) {
    exists i | 0 <= i < |MedicalKeywords| :: Contains(q, MedicalKeywords[i])
  }

  /** Some question word is one of the first three whitespace-separated tokens. */
  predicate LeadsWithQuestionWord(words: seq<string>) {
    exists i | 0 <= i < |QuestionWords| :: QuestionWords[i] in words[..if |words| < 3 then |words| else 3]
  }

  /** The ordered rule list of needs_retrieval, first match wins, over the word
      count n and the outcomes of the three tests: a simple pattern matched, a
      medical keyword occurs, a question word leads. */
  function Decide(n: nat, simple: bool, keyword: bool, question: bool): (r: Classification)
    ensures r.needsRetrieval <==> r.reason.CallsForRetrieval()
    ensures !r.needsRetrieval ==> n <= 3
    ensures r.reason.SimpleGreeting? <==> n <= 3 && simple
    ensures r.reason.MedicalKeywordDetected? <==> !(n <= 3 && simple) && keyword
    ensures r.reason.QuestionDetected? <==> !(n <= 3 && simple) && !keyword && n >= 3 && question
    ensures r.reason.SingleWord? <==> n == 1 && !simple && !keyword
    ensures r.reason.SubstantialQuery? <==> n >= 4 && !keyword && !question
    ensures r.reason.DefaultNoRetrieval? <==>
      && (n == 0 || n == 2 || n == 3)
      && !(n <= 3 && simple) && !keyword && !(n == 3 && question)
  {
    if n <= 3 && simple then Classification(false, SimpleGreeting)
    else if keyword then Classification(true, MedicalKeywordDetected)
    else if n >= 3 && question then Classification(true, QuestionDetected)
    else if n == 1 then Classification(false, SingleWord)
    else if n >= 4 then Classification(true, SubstantialQuery)
    else Classification(false, DefaultNoRetrieval)
  }

  /** QueryClassifier.needs_retrieval: lower-case and strip the message, count its
      whitespace-separated words, and apply the rules of Decide. */
  function NeedsRetrieval(query: string): (r: Classification)
    ensures r.needsRetrieval <==> r.reason.CallsForRetrieval()
    ensures !r.needsRetrieval ==> WordCount(query) <= 3
    ensures r.reason.SimpleGreeting? <==>
      WordCount(query) <= 3 && FirstMatchingPattern(Normalize(query)).Some?
    ensures r.reason.MedicalKeywordDetected? <==>
      && !(WordCount(query) <= 3 && FirstMatchingPattern(Normalize(query)).Some?)
      && HasMedicalKeyword(Normalize(query))
    ensures r.reason.QuestionDetected? <==>
      && !(WordCount(query) <= 3 && FirstMatchingPattern(Normalize(query)).Some?)
      && !HasMedicalKeyword(Normalize(query))
      && WordCount(query) >= 3
      && LeadsWithQuestionWord(Words(query))
    ensures r.reason.SingleWord? ==> WordCount(query) == 1
    ensures r.reason.SubstantialQuery? ==> WordCount(query) >= 4
  {
    var q := Normalize(query);
    var words := Split(q);
    Decide(|words|, FirstMatchingPattern(q).Some?, HasMedicalKeyword(q), LeadsWithQuestionWord(words))
  }

  /** QueryClassifier.get_simple_response: the reply of the first pattern group that
      matches, whatever the word count, else the generic fallback. */
  function SimpleResponse(query: string): (r: string)
    ensures r in PatternReplies || r == FallbackReply
    ensures (forall k :: 0 <= k < |SimplePatterns| ==> !PatternMatches(Normalize(query), k))
      ==> r == FallbackReply
  {
    match FirstMatchingPattern(Normalize(query))
    case Some(k) => PatternReplies[k]
    case None => FallbackReply
  }

  /** The reply belongs to the first pattern group, in list order, that matches. */
  lemma {:induction false} SimpleResponseOfFirstMatch(query: string, k: nat)
    requires k < |SimplePatterns| && PatternMatches(Normalize(query), k)
    requires forall j :: 0 <= j < k ==> !PatternMatches(Normalize(query), j)
    ensures SimpleResponse(query) == PatternReplies[k]
  {
    var m := FirstMatchingPattern(Normalize(query));
    assert m == Some(k);
  }

  /** The six canned replies are pairwise different (they differ in length). */
  lemma RepliesDistinct()
    ensures FallbackReply !in PatternReplies
    ensures forall i, j :: 0 <= i < j < |PatternReplies| ==> PatternReplies[i] != PatternReplies[j]
  {
    assert |GreetingReply| == 163 && |ThanksReply| == 104 && |GoodbyeReply| == 93;
    assert |AcknowledgmentReply| == 80 && |YesNoReply| == 121 && |FallbackReply| == 114;
  }

  /** The reply is the fallback exactly when no simple pattern matches. */
  lemma FallbackIffNoPattern(query: string)
    ensures SimpleResponse(query) == FallbackReply <==>
      forall k :: 0 <= k < |SimplePatterns| ==> !PatternMatches(Normalize(query), k)
  {
    RepliesDistinct();
  }

  /** Every alternative of every simple pattern is non-empty. */
  lemma PatternAlternativesNonEmpty()
    ensures forall k, a :: 0 <= k < |SimplePatterns| && 0 <= a < |SimplePatterns[k]| ==> SimplePatterns[k][a] != []
  {
  }

  /** Every medical keyword is non-empty. */
  lemma KeywordsNonEmpty()
    ensures forall i :: 0 <= i < |MedicalKeywords| ==> MedicalKeywords[i] != []
  {
  }

  /** A message that is empty or all whitespace needs no retrieval, for the default reason. */
  lemma BlankQueryIsDefault(query: string)
    requires forall i :: 0 <= i < |query| ==> IsSpace(query[i])
    ensures NeedsRetrieval(query) == Classification(false, DefaultNoRetrieval)
  {
    BlankNormalizesToEmpty(query);
    var q := Normalize(query);
    assert q == [];
    SplitEmptyIffBlank(q);
    PatternAlternativesNonEmpty();
    forall k | 0 <= k < |SimplePatterns|
      ensures !PatternMatches(q, k)
    {
      assert forall a :: 0 <= a < |SimplePatterns[k]| ==> SimplePatterns[k][a] != [];
    }
    KeywordsNonEmpty();
    forall i | 0 <= i < |MedicalKeywords|
      ensures !Contains(q, MedicalKeywords[i])
    {
      assert MedicalKeywords[i] != [];
    }
  }

  /** Rule 1 comes first: a message of at most three words that matches a simple
      pattern is a simple greeting, whatever keywords or question words it holds. */
  lemma SimplePatternWins(query: string)
    requires WordCount(query) <= 3
    requires exists k :: 0 <= k < |SimplePatterns| && PatternMatches(Normalize(query), k)
    ensures NeedsRetrieval(query) == Classification(false, SimpleGreeting)
  {
  }

  /** Rule 2 comes before the question-word and word-count rules: a keyword occurring
      anywhere, even inside another word, decides retrieval. */
  lemma KeywordWinsOverQuestion(query: string)
    requires !(WordCount(query) <= 3 && FirstMatchingPattern(Normalize(query)).Some?)
    requires HasMedicalKeyword(Normalize(query))
    ensures NeedsRetrieval(query) == Classification(true, MedicalKeywordDetected)
  {
  }

  /** Rule 3: once rules 1 and 2 do not fire, a message of at least three words whose
      first three tokens hold a question word needs retrieval for that reason. */
  lemma QuestionRuleFires(query: string)
    requires !(WordCount(query) <= 3 && FirstMatchingPattern(Normalize(query)).Some?)
    requires !HasMedicalKeyword(Normalize(query))
    requires WordCount(query) >= 3
    requires LeadsWithQuestionWord(Words(query))
    ensures NeedsRetrieval(query) == Classification(true, QuestionDetected)
  {
  }

  /** Rule 4: a single word that matches no pattern and no keyword needs no retrieval. */
  lemma SingleWordNoRetrieval(query: string)
    requires WordCount(query) == 1
    requires FirstMatchingPattern(Normalize(query)).None?
    requires !HasMedicalKeyword(Normalize(query))
    ensures NeedsRetrieval(query) == Classification(false, SingleWord)
  {
  }

  /** For a message that needs no retrieval, the canned reply is the fallback exactly
      when the reason is not simple_greeting. */
  lemma NoRetrievalReply(query: string)
    requires !NeedsRetrieval(query).needsRetrieval
    ensures SimpleResponse(query) == FallbackReply <==> !NeedsRetrieval(query).reason.SimpleGreeting?
  {
    FallbackIffNoPattern(query);
  }
}

/** Worked classifications of concrete messages. */
module QueryClassifierExamples {
  import opened Text
  import opened QueryClassifier

  lemma SplitSingleWord(w: string)
    requires IsWord(w)
    ensures Split(w) == [w]
  {
    SplitCons(w, []);
    assert w + [] == w;
  }

  /* SplitHi and SplitOk each unfold Split on one literal. They are kept apart,
     rather than derived from SplitSingleWord, because instantiating the generic
     lemma at a literal leaves the verifier too much to unfold in the callers. */
  lemma SplitHi()
    ensures Split("hi") == ["hi"]
  {
    assert DropLeadingSpace("hi") == "hi";
    assert TakeWord("hi") == "hi";
  }

  lemma SplitOk()
    ensures Split("ok") == ["ok"]
  {
    assert DropLeadingSpace("ok") == "ok";
    assert TakeWord("ok") == "ok";
  }

  lemma GreetingMatches()
    ensures PatternMatches("hi", 0)
  {
    assert PhraseAt("hi", "hi", 0);
  }

  lemma AcknowledgmentMatches()
    ensures PatternMatches("ok", 3)
  {
    assert PhraseAt("ok", "ok", 0);
  }

  /** A message that reads "hi" once lower-cased and stripped ("Hi", " HI ") is a
      simple greeting. */
  lemma ClassifyHi(query: string)
    requires Normalize(query) == "hi"
    ensures NeedsRetrieval(query) == Classification(false, SimpleGreeting)
  {
    SplitHi();
    GreetingMatches();
    assert WordCount(query) == 1;
    assert PatternMatches(Normalize(query), 0);
    SimplePatternWins(query);
  }

  /** "ok" is an acknowledgment, hence a simple greeting: rule 1 is tried first. */
  lemma ClassifyOk(query: string)
    requires Normalize(query) == "ok"
    ensures NeedsRetrieval(query) == Classification(false, SimpleGreeting)
  {
    SplitOk();
    AcknowledgmentMatches();
    assert WordCount(query) == 1;
    assert PatternMatches(Normalize(query), 3);
    SimplePatternWins(query);
  }

  lemma SymptomsQuestionShape(q: string)
    requires q == "what are the symptoms of flu"
    ensures IsWord("what") && IsWord("are") && IsWord("the")
    ensures q == "what" + " " + ("are" + " " + ("the" + " " + "symptoms of flu"))
  {
  }

  lemma SymptomsQuestionWords(q: string)
    requires q == "what are the symptoms of flu"
    ensures |Split(q)| >= 4
  {
    SymptomsQuestionShape(q);
    SplitAtLeastFourWords("what", "are", "the", "symptoms of flu");
  }

  lemma SymptomsQuestionKeyword()
    ensures HasMedicalKeyword("what are the symptoms of flu")
  {
    assert OccursAt("what are the symptoms of flu", "symptom", 13);
    assert Contains("what are the symptoms of flu", MedicalKeywords[0]);
  }

  /** "what are the symptoms of flu" has six words and holds the keyword "symptom":
      retrieval, for the keyword reason, although it also leads with a question word. */
  lemma ClassifySymptomsQuestion(query: string)
    requires Normalize(query) == "what are the symptoms of flu"
    ensures NeedsRetrieval(query) == Classification(true, MedicalKeywordDetected)
  {
    SymptomsQuestionWords(Normalize(query));
    SymptomsQuestionKeyword();
    KeywordWinsOverQuestion(query);
  }

  lemma LatestResultsParts()
    ensures IsWord("show") && IsWord("the") && IsWord("latest") && IsWord("results")
  {
  }

  lemma LatestResultsShape(q: string)
    requires q == "show the latest results"
    ensures q == "show" + " " + ("the" + " " + ("latest" + " " + "results"))
  {
  }

  lemma LatestResultsWords(q: string)
    requires q == "show the latest results"
    ensures |Split(q)| == 4
  {
    LatestResultsParts();
    LatestResultsShape(q);
    SplitThreeWords("show", "the", "latest", "results");
    SplitSingleWord("results");
  }

  lemma LatestResultsKeyword()
    ensures HasMedicalKeyword("show the latest results")
  {
    assert OccursAt("show the latest results", "test", 11);
    assert Contains("show the latest results", MedicalKeywords[26]);
  }

  /** "show the latest results" has four words, so rule 1 does not apply, and "test"
      occurs inside "latest": the keyword rule fires on part of an unrelated word. */
  lemma ClassifyKeywordInsideWord(query: string)
    requires Normalize(query) == "show the latest results"
    ensures NeedsRetrieval(query) == Classification(true, MedicalKeywordDetected)
  {
    LatestResultsWords(Normalize(query));
    LatestResultsKeyword();
    KeywordWinsOverQuestion(query);
  }
}
