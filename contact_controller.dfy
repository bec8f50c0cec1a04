/** The contact form handler. */
module ContactController {
  import opened Common
  import opened Store
  import opened MessageModel
  import opened Http

  const MsgAllFieldsRequired: string := "姓名、邮箱和留言内容均为必填项"
  const MsgMessageSent: string := "您的留言已成功发送！"

  /** `saveContactMessage` at time `now`. A missing field: 400, nothing stored.
      An address the pattern rejects fails validation while the status is 200.
      Otherwise exactly one message is stored and acknowledged with 201; the
      acknowledgement does not repeat what was stored. */
  method SaveContactMessage(messages: Collection<Message>, body: map<string, string>, now: nat)
    returns (out: Outcome)
    requires messages.Valid()
    modifies messages
    ensures messages.Valid()
    ensures var name, email, text := FieldOf(body, "name"), FieldOf(body, "email"), FieldOf(body, "message");
      if !Truthy(name) || !Truthy(email) || !Truthy(text) then
        out == Thrown(StatusBadRequest, Raised(MsgAllFieldsRequired)) && messages.docs == old(messages.docs)
      else if !EmailPattern.IsEmail(email.value) then
        out == Thrown(StatusOk, Invalid({Mismatch("email")})) && messages.docs == old(messages.docs)
      else
        out == Sent(StatusCreated, Acknowledged(true, MsgMessageSent)) &&
        exists id: Id :: id !in old(messages.docs) &&
          messages.docs == old(messages.docs)[id := Message(name.value, email.value, text.value, now)]
  {
    var name, email, text := FieldOf(body, "name"), FieldOf(body, "email"), FieldOf(body, "message");
    if !Truthy(name) || !Truthy(email) || !Truthy(text) {
      return Thrown(StatusBadRequest, Raised(MsgAllFieldsRequired));
    }
    var message := Message(name.value, email.value, text.value, now);
    var violations := Violations(message);
    if violations != {} {
      assert violations == {Mismatch("email")} by {
        assert forall v :: v in violations ==> v == Mismatch("email");
      }
      return Thrown(StatusOk, Invalid(violations));
    }
    var id := messages.Insert(message);
    return Sent(StatusCreated, Acknowledged(true, MsgMessageSent));
  }
}
