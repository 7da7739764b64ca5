/** `AIChat`: a conversation about one transcript, kept as a history of
    role-tagged messages that starts with a system prompt; the Qwen and
    Deepseek chats append the user's message and the model's answer, and
    `create_ai_chat` picks the provider. The remote call is a parameter. */
module AIChat {
  import opened Wrappers

  datatype Message = Message(role: string, content: string)

  const System := "system"
  const User := "user"
  const Assistant := "assistant"

  datatype Provider = Qwen | Deepseek

  /** What the remote call did: it answered (with an HTTP status, the
      content, and the error code and message a refusal carries), or it
      raised with the given text. */
  datatype Outcome = Answered(status: int, content: string, errorCode: string, errorMessage: string) | Raised(error: string)

  /** The history without system messages, in order. */
  function NonSystem(h: seq<Message>): (r: seq<Message>)
    decreases |h|
  {
    if |h| == 0 then []
    else NonSystem(h[..|h| - 1]) + (if h[|h| - 1].role != System then [h[|h| - 1]] else [])
  }

  /** The visible history holds exactly the non-system messages, each once
      for each time it occurs, in their order. */
  lemma {:induction false} NonSystemSpec(h: seq<Message>)
    ensures |NonSystem(h)| <= |h|
    ensures forall k :: 0 <= k < |NonSystem(h)| ==> NonSystem(h)[k].role != System
    ensures forall m :: m in NonSystem(h) <==> m in h && m.role != System
    decreases |h|
  {
    if |h| > 0 {
      var n := |h| - 1;
      NonSystemSpec(h[..n]);
      assert h == h[..n] + [h[n]];
    }
  }

  /** Each non-system message is kept as many times as it occurs. */
  lemma {:induction false} NonSystemCounts(h: seq<Message>, m: Message)
    requires m.role != System
    ensures multiset(NonSystem(h))[m] == multiset(h)[m]
    decreases |h|
  {
    if |h| > 0 {
      var n := |h| - 1;
      NonSystemCounts(h[..n], m);
      assert h == h[..n] + [h[n]];
    }
  }

  lemma {:induction false} NonSystemAppend(a: seq<Message>, b: seq<Message>)
    ensures NonSystem(a + b) == NonSystem(a) + NonSystem(b)
    decreases |b|
  {
    if |b| == 0 {
      assert a + b == a;
    } else {
      var n := |b| - 1;
      assert (a + b)[..|a + b| - 1] == a + b[..n];
      NonSystemAppend(a, b[..n]);
    }
  }

  /** `clear_history`: the first message alone, or nothing. */
  function Cleared(h: seq<Message>): seq<Message>
  {
    if |h| > 0 then [h[0]] else []
  }

  /** Clearing keeps at most the first message, is idempotent, and after a
      transcript context was set (a system prompt first) leaves no visible
      message. */
  lemma ClearedSpec(h: seq<Message>)
    ensures |Cleared(h)| <= 1 && Cleared(h) == h[..|Cleared(h)|]
    ensures Cleared(Cleared(h)) == Cleared(h)
    ensures |h| > 0 ==> Cleared(h) == [h[0]]
    ensures |h| > 0 && h[0].role == System ==> NonSystem(Cleared(h)) == []
  {
    if |h| > 0 {
      assert NonSystem([h[0]]) == NonSystem([]) + (if h[0].role != System then [h[0]] else []);
    }
  }

  /** The history after one `chat`, and what it returns: an error text when
      it raised. The SDK import (and the Deepseek client) come first, so a
      failure there (`setupError`) leaves the history alone; after that the
      user's message stays even when the call fails, and an answer to it is
      appended when the call succeeds (for Qwen, with status 200). */
  function ChatStep(provider: Provider, h: seq<Message>, userMessage: string, setupError: Option<string>, outcome: Outcome): (seq<Message>, Result<string, string>)
  {
    if setupError.Some? then (h, Err("对话失败: " + setupError.value))
    else
      var withUser := h + [Message(User, userMessage)];
      match outcome
      case Raised(e) => (withUser, Err("对话失败: " + e))
      case Answered(status, content, code, message) =>
        if provider == Qwen && status != 200 then
          var errorMsg := "API 调用失败: " + code + " - " + message;
          (withUser, Err("对话失败: " + errorMsg))
        else (withUser + [Message(Assistant, content)], Ok(content))
  }

  /** A successful chat grows the history by exactly the user's message and
      the answer, both visible; a failed call keeps the user's message only
      when the call was made; every failure reports `对话失败`. */
  lemma ChatStepSpec(provider: Provider, h: seq<Message>, userMessage: string, setupError: Option<string>, outcome: Outcome)
    ensures var (h2, r) := ChatStep(provider, h, userMessage, setupError, outcome);
      (r.Ok? ==> (h2 == h + [Message(User, userMessage), Message(Assistant, r.value)] &&
        NonSystem(h2) == NonSystem(h) + [Message(User, userMessage), Message(Assistant, r.value)])) &&
      (r.Err? && setupError.None? ==> h2 == h + [Message(User, userMessage)]) &&
      (setupError.Some? ==> h2 == h && r.Err?) &&
      (r.Err? ==> |r.error| >= 6 && r.error[..6] == "对话失败: ")
  {
    var (h2, r) := ChatStep(provider, h, userMessage, setupError, outcome);
    if r.Ok? {
      assert h2 == h + [Message(User, userMessage), Message(Assistant, r.value)];
      NonSystemAppend(h, [Message(User, userMessage), Message(Assistant, r.value)]);
      assert NonSystem([Message(User, userMessage), Message(Assistant, r.value)]) ==
        [Message(User, userMessage), Message(Assistant, r.value)] by {
        var two := [Message(User, userMessage), Message(Assistant, r.value)];
        assert two[..1] == [Message(User, userMessage)];
        assert NonSystem(two[..1]) == NonSystem([]) + [Message(User, userMessage)];
      }
    }
  }

  /** Qwen succeeds exactly on status 200, Deepseek whenever it answers. */
  lemma ChatSucceeds(provider: Provider, h: seq<Message>, userMessage: string, outcome: Outcome)
    ensures ChatStep(provider, h, userMessage, None, outcome).1.Ok? <==>
      outcome.Answered? && (provider == Qwen ==> outcome.status == 200)
  {
  }

  /** `config.get(name) or os.getenv(var)`: the first non-empty one. */
  function ApiKey(config: map<string, string>, name: string, env: map<string, string>, variable: string): Option<string>
  {
    if name in config && config[name] != "" then Some(config[name])
    else if variable in env && env[variable] != "" then Some(env[variable])
    else None
  }

  /** What `create_ai_chat` builds: the provider and its key, or the error
      it raises. */
  function ChatFor(provider: string, config: map<string, string>, env: map<string, string>): Result<(Provider, string), string>
  {
    if provider == "qwen" then
      var key := ApiKey(config, "qwen_api_key", env, "QWEN_API_KEY");
      if key.None? then Err("未配置通义千问 API Key") else Ok((Qwen, key.value))
    else if provider == "deepseek" then
      var key := ApiKey(config, "deepseek_api_key", env, "DEEPSEEK_API_KEY");
      if key.None? then Err("未配置 Deepseek API Key") else Ok((Deepseek, key.value))
    else Err("不支持的 AI 提供商: " + provider)
  }

  /** `qwen` and `deepseek` give their chats, when a non-empty key is found
      in the configuration or else the environment; any other name is
      refused. */
  lemma ChatForSpec(provider: string, config: map<string, string>, env: map<string, string>)
    ensures provider != "qwen" && provider != "deepseek" ==> ChatFor(provider, config, env) == Err("不支持的 AI 提供商: " + provider)
    ensures ChatFor(provider, config, env).Ok? ==>
      (ChatFor(provider, config, env).value.0 == Qwen <==> provider == "qwen") &&
      ChatFor(provider, config, env).value.1 != ""
    ensures provider == "qwen" ==> (ChatFor(provider, config, env).Ok? <==>
      ("qwen_api_key" in config && config["qwen_api_key"] != "") || ("QWEN_API_KEY" in env && env["QWEN_API_KEY"] != ""))
    ensures provider == "deepseek" ==> (ChatFor(provider, config, env).Ok? <==>
      ("deepseek_api_key" in config && config["deepseek_api_key"] != "") || ("DEEPSEEK_API_KEY" in env && env["DEEPSEEK_API_KEY"] != ""))
    ensures provider == "qwen" && "qwen_api_key" in config && config["qwen_api_key"] != "" ==>
      ChatFor(provider, config, env) == Ok((Qwen, config["qwen_api_key"]))
  {
  }

  class Chat {
    const provider: Provider
    const apiKey: string
    var history: seq<Message>
    var transcriptContext: string

    /** `AIChat.__init__` with the subclass's provider and key. */
    constructor (provider: Provider, apiKey: string)
      ensures this.provider == provider && this.apiKey == apiKey
      ensures history == [] && transcriptContext == ""
    {
      this.provider := provider;
      this.apiKey := apiKey;
      history := [];
      transcriptContext := "";
    }

    /** `set_transcript_context`, with the system prompt built from the
        transcript and metadata given. */
    method SetTranscriptContext(transcript: string, systemPrompt: string)
      modifies this
      ensures transcriptContext == transcript
      ensures history == [Message(System, systemPrompt)]
    {
      transcriptContext := transcript;
      history := [Message(System, systemPrompt)];
    }

    /** `get_conversation_history`. */
    method GetConversationHistory() returns (visible: seq<Message>)
      ensures visible == NonSystem(history)
    {
      visible := [];
      for i := 0 to |history|
        invariant visible == NonSystem(history[..i])
      {
        assert history[..i + 1][..i] == history[..i];
        if history[i].role != System {
          visible := visible + [history[i]];
        }
      }
      assert history[..|history|] == history;
    }

    /** `clear_history`. */
    method ClearHistory()
      modifies this
      ensures history == Cleared(old(history)) && transcriptContext == old(transcriptContext)
    {
      if |history| > 0 {
        history := [history[0]];
      } else {
        history := [];
      }
    }

    /** `QwenChat.chat` / `DeepseekChat.chat`; the error is the
        `AIChatError` it raises. */
    method Send(userMessage: string, setupError: Option<string>, outcome: Outcome) returns (r: Result<string, string>)
      modifies this
      ensures (history, r) == ChatStep(provider, old(history), userMessage, setupError, outcome)
      ensures transcriptContext == old(transcriptContext)
    {
      if setupError.Some? {
        return Err("对话失败: " + setupError.value);
      }
      history := history + [Message(User, userMessage)];
      match outcome {
        case Raised(e) =>
          return Err("对话失败: " + e);
        case Answered(status, content, code, message) =>
          if provider == Qwen && status != 200 {
            var errorMsg := "API 调用失败: " + code + " - " + message;
            return Err("对话失败: " + errorMsg);
          }
          history := history + [Message(Assistant, content)];
          return Ok(content);
      }
    }
  }

  /** `create_ai_chat`: a fresh chat with an empty history, or the error. */
  method CreateAiChat(provider: string, config: map<string, string>, env: map<string, string>) returns (r: Result<Chat, string>)
    ensures ChatFor(provider, config, env).Err? ==> r == Err(ChatFor(provider, config, env).error)
    ensures ChatFor(provider, config, env).Ok? ==> (r.Ok? && fresh(r.value) &&
      r.value.provider == ChatFor(provider, config, env).value.0 &&
      r.value.apiKey == ChatFor(provider, config, env).value.1 && r.value.history == [])
  {
    var choice := ChatFor(provider, config, env);
    if choice.Err? {
      return Err(choice.error);
    }
    var chat := new Chat(choice.value.0, choice.value.1);
    return Ok(chat);
  }
}
