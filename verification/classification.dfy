/** `classify_query_with_nova`: the classifier model's answer, normalised
    and checked against the three known categories. */
module Classification {
  import opened Maybe
  import opened Text

  datatype QueryType = Greeting | Farewell | KnowledgeBase

  /** The category's name as the model is asked to answer it. */
  function Name(t: QueryType): string {
    match t
    case Greeting => "greeting"
    case Farewell => "farewell"
    case KnowledgeBase => "knowledge_base"
  }

  const ValidCategories: seq<string> := ["greeting", "farewell", "knowledge_base"]

  /** The category whose name is `s`, when there is one. */
  function FromName(s: string): (t: Option<QueryType>)
    ensures t.Some? <==> s in ValidCategories
    ensures t.Some? ==> Name(t.value) == s
  {
    if s == "greeting" then Some(Greeting)
    else if s == "farewell" then Some(Farewell)
    else if s == "knowledge_base" then Some(KnowledgeBase)
    else None
  }

  /** The classifier's answer: the text of the model's first content block
      (`modelText`), or `None` when the call, the JSON decoding or the key
      lookups raised. The text is stripped and lower-cased; anything but a
      known category, and any failure, means a knowledge-base question. */
  function ClassifyQuery(modelText: Option<string>): (t: QueryType)
    ensures Name(t) in ValidCategories
    ensures t == Greeting <==> modelText.Some? && Lower(Strip(modelText.value)) == "greeting"
    ensures t == Farewell <==> modelText.Some? && Lower(Strip(modelText.value)) == "farewell"
    ensures modelText.None? ==> t == KnowledgeBase
  {
    match modelText
    case None => KnowledgeBase
    case Some(text) =>
      var classification := Lower(Strip(text));
      FromName(classification).GetOr(KnowledgeBase)
  }

  /** A model that answers with a category's exact name gets that category. */
  lemma ClassifyName(t: QueryType)
    ensures ClassifyQuery(Some(Name(t))) == t
  {
    NameIsNormal(t);
  }

  lemma NameIsNormal(t: QueryType)
    ensures Lower(Strip(Name(t))) == Name(t)
  {
    match t
    case Greeting => WordIsNormal("greeting");
    case Farewell => WordIsNormal("farewell");
    case KnowledgeBase => WordIsNormal("knowledge_base");
  }

  /** A word of lower-case letters and underscores survives `strip().lower()`. */
  lemma WordIsNormal(w: string)
    requires |w| > 0
    requires forall k :: 0 <= k < |w| ==> 'a' <= w[k] <= 'z' || w[k] == '_'
    ensures Lower(Strip(w)) == w
  {
    assert !IsSpace(w[0]) && !IsSpace(w[|w| - 1]);
    StripUnpadded(w);
    LowerLowercase(w);
  }

  lemma LowerLowercase(w: string)
    requires forall k :: 0 <= k < |w| ==> 'a' <= w[k] <= 'z' || w[k] == '_'
    ensures Lower(w) == w
  {
    forall k | 0 <= k < |w|
      ensures Lower(w)[k] == w[k]
    {
    }
  }

  /** Surrounding whitespace and letter case in the answer do not matter. */
  lemma ClassifyNormalised(text: string)
    ensures ClassifyQuery(Some(Strip(text))) == ClassifyQuery(Some(text))
    ensures ClassifyQuery(Some(Lower(text))) == ClassifyQuery(Some(text))
  {
    StripIdempotent(text);
    StripLower(text);
    LowerIdempotent(Strip(text));
  }
}
