/** The `POST` handler of the generation route: a missing API key fails at once; otherwise the
    handler generates batches with one fixed prompt, at most three times, stopping early at an
    open-response batch or at a batch that passes the distribution check, and answering with the
    last batch produced. A failing attempt ends the request with status 500. */
module GenerateRoute {
  import opened Wrappers
  import opened Questions
  import opened Distribution
  import opened Prompt
  import opened Extraction

  /** `maxTentativas`. */
  const MaxTentativas := 3

  const MissingKeyError := "OpenAI API key não configurada"

  /** The JSON response: `{ questions }`, or `{ error }` with status 500. */
  datatype Response = Success(questions: seq<Question>) | Failure(status: int, error: string)

  /** The outcome of attempt number `n` (0-based) with `prompt`: `gerarQuestoes`, where
      `reply(n, prompt)` is the content of the language model's answer to the `n`-th request. */
  function Outcome(prompt: string, reply: (nat, string) -> Option<string>, parse: string -> Result<seq<Question>>, n: nat): Result<seq<Question>> {
    GerarQuestoes(reply(n, prompt), parse)
  }

  /** A batch that ends the loop before the attempts run out: any open-response batch, and a
      multiple-choice batch that passes the distribution check. */
  predicate Accepted(open: bool, batch: seq<Question>) {
    open || Balanced(batch)
  }

  /** The retry loop from attempt `n` on: the response and the number of attempts made in all. */
  function Retry(open: bool, prompt: string, reply: (nat, string) -> Option<string>, parse: string -> Result<seq<Question>>, n: nat): (r: (Response, nat))
    requires n < MaxTentativas
    ensures n < r.1 <= MaxTentativas
    decreases MaxTentativas - n
  {
    var result := Outcome(prompt, reply, parse, n);
    if result.Err? then (Failure(500, result.message), n + 1)
    else if Accepted(open, result.value) || n + 1 == MaxTentativas then (Success(result.value), n + 1)
    else Retry(open, prompt, reply, parse, n + 1)
  }

  /** What the retry loop does, attempt by attempt: every attempt before the last produced a batch
      and rejected it; the last attempt's failure is the error response, and its batch is the
      response, accepted unless the attempts ran out. An open-response request makes one attempt. */
  lemma {:induction false} RetrySpec(open: bool, prompt: string, reply: (nat, string) -> Option<string>, parse: string -> Result<seq<Question>>, n: nat)
    requires n < MaxTentativas
    ensures var (response, count) := Retry(open, prompt, reply, parse, n);
      && (forall k :: n <= k < count - 1 ==>
            Outcome(prompt, reply, parse, k).Ok? && !Accepted(open, Outcome(prompt, reply, parse, k).value))
      && var last := Outcome(prompt, reply, parse, count - 1);
      && (last.Err? ==> response == Failure(500, last.message))
      && (last.Ok? ==> response == Success(last.value) && (Accepted(open, last.value) || count == MaxTentativas))
    ensures open ==> Retry(open, prompt, reply, parse, n).1 == n + 1
    decreases MaxTentativas - n
  {
    var result := Outcome(prompt, reply, parse, n);
    if result.Ok? && !Accepted(open, result.value) && n + 1 < MaxTentativas {
      RetrySpec(open, prompt, reply, parse, n + 1);
    }
  }

  /** The `do … while (tentativas < maxTentativas)` loop of `POST`, sending the same prompt (the
      template filled from the body, identical on every turn) until a batch is accepted, an
      attempt fails or three attempts were made; `sent` lists the prompts sent, in order. */
  method Generate(open: bool, prompt: string, reply: (nat, string) -> Option<string>, parse: string -> Result<seq<Question>>)
    returns (response: Response, sent: seq<string>)
    ensures (response, |sent|) == Retry(open, prompt, reply, parse, 0)
    ensures sent == seq(|sent|, _ => prompt)
  {
    var tentativas := 0;
    sent := [];
    while true
      invariant 0 <= tentativas < MaxTentativas
      invariant sent == seq(tentativas, _ => prompt)
      invariant Retry(open, prompt, reply, parse, tentativas) == Retry(open, prompt, reply, parse, 0)
      decreases MaxTentativas - tentativas
    {
      sent := sent + [prompt];
      var questions := GerarQuestoes(reply(tentativas, prompt), parse);
      if questions.Err? {
        return Failure(500, questions.message), sent;
      }
      if !open {
        var verdict := Verify(questions.value);
        if !verdict.distribuicaoRuim && !verdict.todasMesmaPosicao {
          return Success(questions.value), sent;
        }
      } else {
        return Success(questions.value), sent;
      }
      tentativas := tentativas + 1;
      if tentativas >= MaxTentativas {
        return Success(questions.value), sent;
      }
    }
  }

  /** `POST`. `apiKeySet` says whether `OPENAI_API_KEY` is configured; `sent` lists the prompts sent
      to the language model, one per attempt, each of them the prompt of the body. */
  method Post(apiKeySet: bool, body: Body, reply: (nat, string) -> Option<string>, parse: string -> Result<seq<Question>>)
    returns (response: Response, sent: seq<string>)
    ensures !apiKeySet ==> response == Failure(500, MissingKeyError) && sent == []
    ensures apiKeySet ==> (response, |sent|) == Retry(IsOpen(body), RoutePrompt(body), reply, parse, 0)
    ensures forall k :: 0 <= k < |sent| ==> sent[k] == RoutePrompt(body)
  {
    if !apiKeySet {
      return Failure(500, MissingKeyError), [];
    }
    // The two tier lookups and the template, composed as `RoutePrompt` composes them.
    var prompt := RoutePrompt(body);
    response, sent := Generate(IsOpen(body), prompt, reply, parse);
  }
}
