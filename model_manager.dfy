/**
 * The model choice of `ModelManager`: which model a request asks for, which
 * backend `generate_content` calls, and whether a model has its API key.
 * The two HTTP backends are parameters.
 */
module ModelManager {
  import opened Wrappers
  import opened Text

  datatype ModelType = Gemini | GroqLlama

  /** The two API keys read from the environment; `None` is an unset variable. */
  datatype Manager = Manager(geminiKey: Option<string>, groqKey: Option<string>)

  const GroqKeywords: seq<string> := [
    "use llama", "use groq", "switch to groq", "switch to llama",
    "fast mode", "use llama model", "groq model", "llama model",
    "llama3", "llama 3", "groq llama"
  ]

  const GeminiKeywords: seq<string> := ["use gemini", "switch to gemini", "gemini model"]

  /** `detect_model_preference`: the Groq keywords are checked first, then the Gemini ones. */
  function DetectModelPreference(userInput: string, default: ModelType): (r: ModelType)
  {
    if userInput == [] then default
    else
      var userLower := Lower(userInput);
      if ContainsAnyFrom(userLower, GroqKeywords, 0) then GroqLlama
      else if ContainsAnyFrom(userLower, GeminiKeywords, 0) then Gemini
      else default
  }

  /**
   * Empty input keeps the default; any Groq keyword wins, even beside a
   * Gemini one; a Gemini keyword counts only without a Groq one; otherwise
   * the default stays.
   */
  lemma PreferenceCases(userInput: string, default: ModelType)
    ensures userInput == [] ==> DetectModelPreference(userInput, default) == default
    ensures userInput != [] ==>
      (DetectModelPreference(userInput, default) == GroqLlama <==>
        ContainsAny(Lower(userInput), GroqKeywords)
        || (!ContainsAny(Lower(userInput), GeminiKeywords) && default == GroqLlama))
    ensures userInput != [] ==>
      (DetectModelPreference(userInput, default) == Gemini <==>
        !ContainsAny(Lower(userInput), GroqKeywords)
        && (ContainsAny(Lower(userInput), GeminiKeywords) || default == Gemini))
  {
  }

  lemma LowerIdempotent(s: string)
    ensures Lower(Lower(s)) == Lower(s)
  {
    forall i | 0 <= i < |s| ensures Lower(Lower(s))[i] == Lower(s)[i] {
      assert Lower(s)[i] == LowerChar(s[i]);
    }
  }

  /** Matching ignores case: lower-casing the request first changes nothing. */
  lemma PreferenceIgnoresCase(userInput: string, default: ModelType)
    ensures DetectModelPreference(Lower(userInput), default) == DetectModelPreference(userInput, default)
  {
    hide ContainsAnyFrom;
    LowerIdempotent(userInput);
  }

  /** "fast mode" anywhere in the request, in any case, picks Groq. */
  lemma FastModePicksGroq(before: string, after: string, default: ModelType)
    ensures DetectModelPreference(before + "Fast Mode" + after, default) == GroqLlama
  {
    var s := before + "Fast Mode" + after;
    var l := Lower(s);
    var k := |before|;
    assert s[k..k + 9] == "Fast Mode";
    LowerSlice(s, k, k + 9);
    assert Lower(s[k..k + 9]) == "fast mode";
    assert StartsAt(l, k, GroqKeywords[4]);
    ContainsAt(l, GroqKeywords[4], k);
  }

  /** The backend `generate_content` sends a prompt to. */
  datatype Backend = GeminiBackend | GroqBackend

  /** The routing of `generate_content`: Gemini falls back to Groq when only the Groq key is set. */
  function Route(m: Manager, modelType: ModelType): Backend
  {
    if modelType == GroqLlama then GroqBackend
    else if !IsSet(m.geminiKey) && IsSet(m.groqKey) then GroqBackend
    else GeminiBackend
  }

  /** Groq is used exactly when asked for, or when Gemini is asked for without its key but the Groq key is set. */
  lemma RouteCases(m: Manager, modelType: ModelType)
    ensures Route(m, modelType) == GroqBackend <==>
      modelType == GroqLlama || (!IsSet(m.geminiKey) && IsSet(m.groqKey))
    ensures modelType == Gemini && IsSet(m.geminiKey) ==> Route(m, modelType) == GeminiBackend
  {
  }

  /**
   * `generate_content`: the chosen backend's reply, or the error raised by
   * `_init_gemini` / `_generate_with_groq` when that backend's key is not set.
   */
  function GenerateContent(m: Manager, prompt: string, modelType: ModelType,
                           gemini: string -> Result<string, string>,
                           groq: string -> Result<string, string>): (r: Result<string, string>)
    ensures Route(m, modelType) == GroqBackend && IsSet(m.groqKey) ==> r == groq(prompt)
    ensures Route(m, modelType) == GeminiBackend && IsSet(m.geminiKey) ==> r == gemini(prompt)
    ensures Route(m, modelType) == GroqBackend && !IsSet(m.groqKey) ==> r == Err("GROQ_API_KEY not set")
    ensures Route(m, modelType) == GeminiBackend && !IsSet(m.geminiKey) ==> r == Err("GEMINI_API_KEY not set in environment variables")
  {
    match Route(m, modelType)
    case GroqBackend => if !IsSet(m.groqKey) then Err("GROQ_API_KEY not set") else groq(prompt)
    case GeminiBackend => if !IsSet(m.geminiKey) then Err("GEMINI_API_KEY not set in environment variables") else gemini(prompt)
  }

  /** With neither key set, each model fails with its own missing-key error. */
  lemma NoKeyFails(m: Manager, prompt: string, modelType: ModelType,
                   gemini: string -> Result<string, string>, groq: string -> Result<string, string>)
    requires !IsSet(m.geminiKey) && !IsSet(m.groqKey)
    ensures GenerateContent(m, prompt, modelType, gemini, groq)
      == if modelType == GroqLlama then Err("GROQ_API_KEY not set") else Err("GEMINI_API_KEY not set in environment variables")
  {
  }

  /** With at least one key set, a request never fails for a missing key. */
  lemma OneKeySuffices(m: Manager, prompt: string, modelType: ModelType,
                       gemini: string -> Result<string, string>, groq: string -> Result<string, string>)
    requires IsSet(m.geminiKey) || IsSet(m.groqKey)
    requires modelType == Gemini
    ensures GenerateContent(m, prompt, modelType, gemini, groq) == gemini(prompt)
         || GenerateContent(m, prompt, modelType, gemini, groq) == groq(prompt)
  {
  }

  /** `is_model_available`: the model's key is set. */
  function IsModelAvailable(m: Manager, modelType: ModelType): (r: bool)
    ensures r <==> IsSet(if modelType == GroqLlama then m.groqKey else m.geminiKey)
  {
    if modelType == GroqLlama then IsSet(m.groqKey) else IsSet(m.geminiKey)
  }

  /** A model that is available is never refused for its key. */
  lemma AvailableModelRuns(m: Manager, prompt: string, modelType: ModelType,
                           gemini: string -> Result<string, string>, groq: string -> Result<string, string>)
    requires IsModelAvailable(m, modelType)
    ensures GenerateContent(m, prompt, modelType, gemini, groq)
      == (if modelType == GroqLlama then groq(prompt) else gemini(prompt))
  {
  }
}
