/**
 * The keyword responder of the PhysicsNeMo terminal chat (teste.py):
 * an ordered rule over the lower-cased question, and the exit-command test.
 */
module Responder {
  import opened Text

  const ModelsAnswer := "Você pode usar módulos como Burgers, Navier-Stokes ou Darcy para simular fenômenos físicos."
  const CudaAnswer := "Sim, o PhysicsNeMo suporta execução em CUDA para acelerar simulações com GPU."
  const ParametersAnswer := "Você pode acessar os parâmetros de um módulo com .parameters() ou .named_parameters()."
  const FallbackAnswer := "Ainda estou aprendendo sobre isso. Tente perguntar sobre modelos, dispositivos ou parâmetros."

  /** The four answers differ pairwise: their lengths are 91, 77, 86 and 93. */
  lemma AnswersDistinct()
    ensures ModelsAnswer != CudaAnswer && ModelsAnswer != ParametersAnswer && ModelsAnswer != FallbackAnswer
    ensures CudaAnswer != ParametersAnswer && CudaAnswer != FallbackAnswer
    ensures ParametersAnswer != FallbackAnswer
  {
  }

  /** `responder_pergunta`: the first keyword of the lower-cased question wins. */
  function Answer(question: string): (r: string)
    ensures r in {ModelsAnswer, CudaAnswer, ParametersAnswer, FallbackAnswer}
  {
    var q := Lower(question);
    if Contains(q, "modelo") then ModelsAnswer
    else if Contains(q, "cuda") then CudaAnswer
    else if Contains(q, "parâmetro") then ParametersAnswer
    else FallbackAnswer
  }

  /** The answer only depends on the lower-cased question. */
  lemma AnswerCaseInsensitive(question: string)
    ensures Answer(Lower(question)) == Answer(question)
  {
    LowerIdempotent(question);
  }

  /** Which answer is given, as an if-and-only-if per answer: the keyword
      order "modelo", "cuda", "parâmetro" decides, with a fixed fallback. */
  lemma AnswerRule(question: string)
    ensures var q := Lower(question);
      && (Answer(question) == ModelsAnswer <==> Contains(q, "modelo"))
      && (Answer(question) == CudaAnswer <==> !Contains(q, "modelo") && Contains(q, "cuda"))
      && (Answer(question) == ParametersAnswer <==>
            !Contains(q, "modelo") && !Contains(q, "cuda") && Contains(q, "parâmetro"))
      && (Answer(question) == FallbackAnswer <==>
            !Contains(q, "modelo") && !Contains(q, "cuda") && !Contains(q, "parâmetro"))
  {
    AnswersDistinct();
  }

  /** The exit test `pergunta.lower() in ["sair", "exit", "quit"]`. */
  predicate IsExitCommand(input: string): (b: bool)
    ensures b <==> Lower(input) == "sair" || Lower(input) == "exit" || Lower(input) == "quit"
  {
    Lower(input) in ["sair", "exit", "quit"]
  }

  /** The exit test ignores case: an input and its lower-cased form agree. */
  lemma ExitCommandCaseInsensitive(input: string)
    ensures IsExitCommand(Lower(input)) == IsExitCommand(input)
  {
    LowerIdempotent(input);
  }

  /** An exit word typed in capitals ends the session; one with a trailing blank does not. */
  lemma ExitCommandExamples()
    ensures IsExitCommand("SAIR") && IsExitCommand("Quit")
    ensures !IsExitCommand("sair ")
  {
    assert Lower("SAIR") == "sair";
    assert Lower("Quit") == "quit";
  }

  /** The answers printed by the `while True` loop for the lines typed in
      `inputs`: one per line up to, not including, the first exit command. */
  function Replies(inputs: seq<string>): (r: seq<string>)
    ensures |r| <= |inputs|
    ensures forall j :: 0 <= j < |r| ==> !IsExitCommand(inputs[j]) && r[j] == Answer(inputs[j])
    ensures |r| < |inputs| ==> IsExitCommand(inputs[|r|])
  {
    if inputs == [] || IsExitCommand(inputs[0]) then []
    else [Answer(inputs[0])] + Replies(inputs[1..])
  }
}
