/** How an error of the cloud library becomes a CSI status: pkg/messages/messages.go. */
module Messages {
  import opened Wrappers
  import opened Text
  import opened GappedMatch

  datatype Code = OK | InvalidArgument | Internal | OtherCode(n: nat)

  datatype Message = Message(
    code: string, kind: Code, requestID: string, description: string,
    backendError: string, csiError: string, action: string)

  /** What Go reads from a map without the key. */
  const ZeroMessage := Message("", OK, "", "", "", "", "")

  const InternalError := "InternalError"
  const InvalidParameters := "InvalidParameters"
  const RC5XX := "RC:5"

  /** The message table, and Go's formatting of a description with arguments. */
  datatype Catalogue = Catalogue(messagesEn: map<string, Message>, format: (string, seq<string>) -> string)

  /** The table has the two messages for errors of the library, under their CSI codes. */
  predicate Initialised(cat: Catalogue) {
    && "InternalError" in cat.messagesEn && cat.messagesEn["InternalError"].kind == Internal
    && "InvalidParameters" in cat.messagesEn && cat.messagesEn["InvalidParameters"].kind == InvalidArgument
  }

  /** What the table says about a code, the zero message if it has no such code. */
  function EntryOf(cat: Catalogue, code: string): Message {
    if code in cat.messagesEn then cat.messagesEn[code] else ZeroMessage
  }

  /** The entry with its description formatted when there are arguments; the table keeps its own copy. */
  method GetCSIMessage(cat: Catalogue, code: string, args: seq<string>) returns (userMsg: Message)
    ensures userMsg.(description := "") == EntryOf(cat, code).(description := "")
    ensures args == [] ==> userMsg.description == EntryOf(cat, code).description
    ensures args != [] ==> userMsg.description == cat.format(EntryOf(cat, code).description, args)
    ensures code !in cat.messagesEn && args == [] ==> userMsg == ZeroMessage
  {
    userMsg := if code in cat.messagesEn then cat.messagesEn[code] else ZeroMessage;
    if |args| > 0 {
      userMsg := userMsg.(description := cat.format(userMsg.description, args));
    }
  }

  /** A gRPC status of kind OK is a nil error: its caller is told that all is well. */
  predicate ReportsSuccess(status: Message) {
    status.kind == OK
  }

  /**
    `err` is None for a nil error.  An unknown code, like one that the table lists under
    OK, makes the call report success, whatever the error was.
   */
  method GetCSIError(cat: Catalogue, code: string, requestID: string, err: Option<string>, args: seq<string>)
    returns (status: Message)
    ensures status.requestID == requestID
    ensures status.csiError == if err.Some? then err.value else EntryOf(cat, code).csiError
    ensures var entry := EntryOf(cat, code);
      && status.code == entry.code && status.kind == entry.kind
      && status.backendError == entry.backendError && status.action == entry.action
      && status.description == if args == [] then entry.description else cat.format(entry.description, args)
    ensures ReportsSuccess(status) <==> code in cat.messagesEn ==> cat.messagesEn[code].kind == OK
  {
    status := GetCSIMessage(cat, code, args);
    if err.Some? {
      status := status.(csiError := err.value);
    }
    status := status.(requestID := requestID);
  }

  /** The characters of a server error's code stand at these places, with only spaces between. */
  predicate ServerErrorAt(text: string, i: nat, j: nat, k: nat, l: nat) {
    && i < j < k < l < |text|
    && text[i] == 'R' && text[j] == 'C' && text[k] == ':' && text[l] == '5'
    && forall m | i < m < l && m != j && m != k :: text[m] == ' '
  }

  lemma FourPlaces(text: string) returns (i: nat, j: nat, k: nat, l: nat)
    requires Gapped(text, RC5XX)
    ensures i < j < k < l < |text| && text[i] == 'R' && text[j] == 'C' && text[k] == ':' && text[l] == '5'
    ensures forall m | i < m < l && m != j && m != k :: text[m] == ' '
  {
    var at :| GappedAt(text, RC5XX, at);
    i, j, k, l := at[0], at[1], at[2], at[3];
    assert at[0] < at[0 + 1] && at[1] < at[1 + 1] && at[2] < at[2 + 1];
    forall m | i < m < l && m != j && m != k ensures text[m] == ' ' {
      assert at[0] < m < at[0 + 1] || at[1] < m < at[1 + 1] || at[2] < m < at[2 + 1];
    }
  }

  lemma FourPlacesGapped(text: string, i: nat, j: nat, k: nat, l: nat)
    requires i < j < k < l < |text| && text[i] == 'R' && text[j] == 'C' && text[k] == ':' && text[l] == '5'
    requires forall m | i < m < l && m != j && m != k :: text[m] == ' '
    ensures Gapped(text, RC5XX)
  {
    assert GappedAt(text, RC5XX, [i, j, k, l]);
  }

  /** The gapped match, character by character. */
  lemma ServerErrorExactly(text: string)
    ensures Gapped(text, RC5XX) <==> exists i, j, k, l :: ServerErrorAt(text, i, j, k, l)
  {
    if Gapped(text, RC5XX) {
      var i, j, k, l := FourPlaces(text);
      assert ServerErrorAt(text, i, j, k, l);
    }
    if i: nat, j: nat, k: nat, l: nat :| ServerErrorAt(text, i, j, k, l) {
      FourPlacesGapped(text, i, j, k, l);
    }
  }

  lemma WithoutFive(text: string)
    requires '5' !in text
    ensures !Gapped(text, RC5XX)
  {
    if Gapped(text, RC5XX) {
      var i, j, k, l := FourPlaces(text);
    }
  }

  /** An error text that begins with RC:5, such as RC:503, is a server error. */
  lemma ServerError(rest: string)
    ensures Gapped("RC:5" + rest, RC5XX)
  {
    var text := "RC:5" + rest;
    assert text[0] == 'R' && text[1] == 'C' && text[2] == ':' && text[3] == '5';
    FourPlacesGapped(text, 0, 1, 2, 3);
  }

  /** One that begins with RC:4, such as RC:404, and has no 5 in it is not. */
  lemma ClientError(rest: string)
    requires '5' !in rest
    ensures !Gapped("RC:4" + rest, RC5XX)
  {
    WithoutFive("RC:4" + rest);
  }

  /**
    The status is Internal exactly when the error's text has R, C, a colon and 5 in this
    order with nothing but spaces between them, and InvalidArgument otherwise.
   */
  method GetCSIBackendError(cat: Catalogue, requestID: string, err: Option<string>, args: seq<string>)
    returns (status: Message)
    requires Initialised(cat)
    ensures var text := if err.Some? then err.value else "";
      && status.kind == (if Gapped(text, RC5XX) then Internal else InvalidArgument)
      && (status.kind == Internal <==> exists i, j, k, l :: ServerErrorAt(text, i, j, k, l))
      && status.code == cat.messagesEn[if Gapped(text, RC5XX) then "InternalError" else "InvalidParameters"].code
      && status.backendError == text && status.requestID == requestID
  {
    var backendError := "";
    if err.Some? {
      backendError := err.value;
    }
    ContainsIsGapped(backendError, RC5XX);
    ServerErrorExactly(backendError);
    if Contains(RemoveSpaces(backendError), RC5XX) {
      status := GetCSIMessage(cat, InternalError, args);
    } else {
      status := GetCSIMessage(cat, InvalidParameters, args);
    }
    status := status.(requestID := requestID);
    status := status.(backendError := backendError);
  }

  /** A nil error, like any text without the pattern, is the client's fault. */
  lemma NilErrorIsNotInternal()
    ensures !Gapped("", RC5XX)
  {
    ContainsIsGapped("", RC5XX);
    assert RemoveSpaces("") == "";
    assert forall i: nat :: !OccursAt("", RC5XX, i);
  }
}
