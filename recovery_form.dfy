/** The password-recovery form, src/components/auth/RecoveryForm.js: stage 1
    asks for the secret question of an e-mail address, stage 2 sends the
    answer with the new password. The state hooks become fields; each
    handler receives the reply of the call it awaits. */
module RecoveryForm {
  import opened JsValues

  const QuestionError := "Error al obtener la pregunta"
  const RecoveryError := "Error al recuperar contraseña"

  class RecoveryForm {
    var email: string
    var question: string
    var answer: string
    var newPassword: string
    var stage: int
    var message: string
    var error: string

    /** The form shows one of its two stages. */
    ghost predicate Valid()
      reads this
    {
      stage == 1 || stage == 2
    }

    constructor ()
      ensures Valid()
      ensures stage == 1 && question == "" && message == "" && error == ""
      ensures email == "" && answer == "" && newPassword == ""
    {
      email, question, answer, newPassword := "", "", "", "";
      stage := 1;
      message, error := "", "";
    }

    /** The inputs' onChange handlers. */
    method SetFields(email: string, answer: string, newPassword: string)
      modifies this`email, this`answer, this`newPassword
      ensures this.email == email && this.answer == answer && this.newPassword == newPassword
    {
      this.email := email;
      this.answer := answer;
      this.newPassword := newPassword;
    }

    /** fetchQuestion: a question from the service moves the form to stage 2
        and clears the error; a failure keeps the stage and shows the
        server's message, or the default one when it sent none. */
    method FetchQuestion(reply: Reply<string>)
      requires Valid()
      modifies this`question, this`stage, this`error
      ensures Valid()
      ensures old(stage) == 2 ==> stage == 2
      ensures reply.Success? ==> question == reply.value && stage == 2 && error == ""
      ensures reply.Failure? ==>
        question == old(question) && stage == old(stage) && error == MessageOr(reply.message, QuestionError)
      ensures reply.Failure? ==> error != ""
    {
      match reply {
        case Success(q) =>
          question := q;
          stage := 2;
          error := "";
        case Failure(m) =>
          error := MessageOr(m, QuestionError);
      }
    }

    /** handleRecovery: a verified answer shows the service's message, clears
        the error and schedules the return to the login view (`toLogin`); a
        failure shows the server's message, or the default one. The stage
        does not change. */
    method HandleRecovery(reply: Reply<string>) returns (toLogin: bool)
      requires Valid()
      modifies this`message, this`error
      ensures Valid()
      ensures toLogin <==> reply.Success?
      ensures reply.Success? ==> message == reply.value && error == ""
      ensures reply.Failure? ==> message == old(message) && error == MessageOr(reply.message, RecoveryError)
      ensures reply.Failure? ==> error != ""
    {
      match reply {
        case Success(m) =>
          message := m;
          error := "";
          toLogin := true;
        case Failure(m) =>
          error := MessageOr(m, RecoveryError);
          toLogin := false;
      }
    }
  }

  /** A run of the form: whatever replies the two handlers get, in any order,
      the stage stays 1 or 2 and, once it is 2, it stays 2. */
  method RunRecovery(form: RecoveryForm, replies: seq<(bool, Reply<string>)>)
    requires form.Valid()
    modifies form
    ensures form.Valid()
    ensures old(form.stage) == 2 ==> form.stage == 2
    ensures (exists k :: 0 <= k < |replies| && replies[k].0 && replies[k].1.Success?) ==> form.stage == 2
  {
    var i := 0;
    while i < |replies|
      invariant 0 <= i <= |replies|
      invariant form.Valid()
      invariant old(form.stage) == 2 ==> form.stage == 2
      invariant (exists k :: 0 <= k < i && replies[k].0 && replies[k].1.Success?) ==> form.stage == 2
    {
      var (isFetch, reply) := replies[i];
      if isFetch {
        form.FetchQuestion(reply);
      } else {
        var _ := form.HandleRecovery(reply);
      }
      i := i + 1;
    }
  }
}
