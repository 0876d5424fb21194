/**
 * One node of a prompt chain, and access to its fields by name.
 *
 * The sampling parameters and `max_tokens` are JavaScript numbers that the
 * runtime only copies; they are `real` here and nothing computes on them.
 */
module Prompts {

  /** The model descriptor a node names; the runtime only forwards `name`. */
  datatype Model = Model(id: string, name: string)

  /** `models[0]`, the model every new node starts with. */
  const DefaultModel: Model := Model("id-1", "gpt-4")

  datatype Prompt = Prompt(
    previousResponse: string,
    systemNotes: string,
    user: string,
    response: string,
    temperature: real,
    top_p: real,
    frequency_penalty: real,
    presence_penalty: real,
    model: Model,
    max_tokens: real)

  /** The keys the editor passes to `handleUpdatePrompt`, one per field. */
  datatype Field =
    | PreviousResponse | SystemNotes | User | Response
    | Temperature | TopP | FrequencyPenalty | PresencePenalty
    | ModelChoice | MaxTokens

  /** A value stored under a key: text, a number or a model. */
  datatype Value = Text(text: string) | Number(number: real) | Choice(model: Model)

  /** The value kind the `Prompt` type declares for each field. */
  predicate Fits(field: Field, value: Value) {
    match field
    case PreviousResponse | SystemNotes | User | Response => value.Text?
    case ModelChoice => value.Choice?
    case Temperature | TopP | FrequencyPenalty | PresencePenalty | MaxTokens => value.Number?
  }

  /** `prompt[key]`. */
  function Get(p: Prompt, field: Field): (v: Value)
    ensures Fits(field, v)
  {
    match field
    case PreviousResponse => Text(p.previousResponse)
    case SystemNotes => Text(p.systemNotes)
    case User => Text(p.user)
    case Response => Text(p.response)
    case Temperature => Number(p.temperature)
    case TopP => Number(p.top_p)
    case FrequencyPenalty => Number(p.frequency_penalty)
    case PresencePenalty => Number(p.presence_penalty)
    case ModelChoice => Choice(p.model)
    case MaxTokens => Number(p.max_tokens)
  }

  /** `{ ...prompt, [key]: value }`: the named field takes the value, every other field is kept. */
  function Set(p: Prompt, field: Field, value: Value): (q: Prompt)
    requires Fits(field, value)
    ensures Get(q, field) == value
    ensures forall g :: g != field ==> Get(q, g) == Get(p, g)
  {
    match field
    case PreviousResponse => p.(previousResponse := value.text)
    case SystemNotes => p.(systemNotes := value.text)
    case User => p.(user := value.text)
    case Response => p.(response := value.text)
    case Temperature => p.(temperature := value.number)
    case TopP => p.(top_p := value.number)
    case FrequencyPenalty => p.(frequency_penalty := value.number)
    case PresencePenalty => p.(presence_penalty := value.number)
    case ModelChoice => p.(model := value.model)
    case MaxTokens => p.(max_tokens := value.number)
  }

  /** A node is nothing but its fields: two nodes that agree on every key are equal. */
  lemma FieldsDetermine(p: Prompt, q: Prompt)
    requires forall f :: Get(p, f) == Get(q, f)
    ensures p == q
  {
    assert Get(p, PreviousResponse) == Get(q, PreviousResponse);
    assert Get(p, SystemNotes) == Get(q, SystemNotes);
    assert Get(p, User) == Get(q, User);
    assert Get(p, Response) == Get(q, Response);
    assert Get(p, Temperature) == Get(q, Temperature);
    assert Get(p, TopP) == Get(q, TopP);
    assert Get(p, FrequencyPenalty) == Get(q, FrequencyPenalty);
    assert Get(p, PresencePenalty) == Get(q, PresencePenalty);
    assert Get(p, ModelChoice) == Get(q, ModelChoice);
    assert Get(p, MaxTokens) == Get(q, MaxTokens);
  }
}
