/**
 * The remote text-generation model, seen from the app: it receives a prompt
 * and answers with text or fails. The prompt template embeds the company
 * name between two fixed passages.
 */
module Service {

  /** A reply of the remote model: its text, or the message of the exception raised. */
  datatype Reply = Ok(text: string) | Failed(error: string)

  /** The fixed text before the company name. */
  const PromptOpening: string := "Write a summary of the company:"

  /** The fixed text after the company name (two lines). */
  const PromptClosing: string :=
    " in a formal tone and with as much detail as possible. Don't add any wrong information. "
    + "All the information should be correct.  \n"
    + "                Please summarize the company with all the relevant information "
    + "within a minimum of 8 lines and a maximum of 10 lines."

  /** The prompt sent for one company. */
  function Prompt(company: string): string
  {
    PromptOpening + company + PromptClosing
  }

  /** The company name can be read back out of its prompt. */
  lemma PromptEmbedsName(company: string)
    ensures |Prompt(company)| == |PromptOpening| + |company| + |PromptClosing|
    ensures Prompt(company)[|PromptOpening|..|PromptOpening| + |company|] == company
  {
    var p := Prompt(company);
    assert p == PromptOpening + (company + PromptClosing);
    assert (company + PromptClosing)[..|company|] == company;
  }

  /** Distinct companies get distinct prompts. */
  lemma PromptInjective(a: string, b: string)
    ensures Prompt(a) == Prompt(b) <==> a == b
  {
    if Prompt(a) == Prompt(b) {
      PromptEmbedsName(a);
      PromptEmbedsName(b);
    }
  }

  /** The prompts for a sequence of companies, in order. */
  function Prompts(companies: seq<string>): seq<string>
  {
    seq(|companies|, i requires 0 <= i < |companies| => Prompt(companies[i]))
  }

  /** A log of prompts determines the companies, in order, that were asked about. */
  lemma PromptsInjective(xs: seq<string>, ys: seq<string>)
    ensures Prompts(xs) == Prompts(ys) <==> xs == ys
  {
    if Prompts(xs) == Prompts(ys) {
      assert |xs| == |Prompts(xs)|;
      forall i | 0 <= i < |xs| ensures xs[i] == ys[i] {
        assert Prompts(xs)[i] == Prompts(ys)[i];
        PromptInjective(xs[i], ys[i]);
      }
    }
  }

  /**
   * The generative model. `respond` is an oracle: the reply to the n-th call
   * (counted from 0) with a given prompt, which may be a failure. `prompts`
   * is every prompt the model has received, in order.
   */
  class GenerativeModel {
    const respond: (nat, string) -> Reply
    var prompts: seq<string>

    constructor (respond: (nat, string) -> Reply)
      ensures this.respond == respond && prompts == []
    {
      this.respond := respond;
      prompts := [];
    }

    /** `generate_content`: one call, logged, answered by the oracle. */
    method GenerateContent(prompt: string) returns (r: Reply)
      modifies this
      ensures prompts == old(prompts) + [prompt]
      ensures r == respond(|old(prompts)|, prompt)
    {
      r := respond(|prompts|, prompt);
      prompts := prompts + [prompt];
    }
  }
}
