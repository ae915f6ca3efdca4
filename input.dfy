/** The three entry fields of the "Add Timer" form and the checks add_timer
    makes before it creates a timer (the same in both variants). */
module Input {
  import opened Wrappers
  import opened Text

  /** The two error dialogs of add_timer. */
  datatype InputError =
    | MissingField  // "All fields are required."
    | BadInterval   // "Interval must be a positive integer."

  /** What the form yields once it is accepted. */
  datatype Entry = Entry(processName: string, intervalMinutes: int, message: string)

  /** add_timer's validation: every field is stripped; a field left empty is
      MissingField, otherwise an interval that int() rejects or that is not
      positive is BadInterval. */
  function CheckInput(nameText: string, intervalText: string, messageText: string): (r: Result<Entry, InputError>)
    ensures r == Failure(MissingField) <==> Strip(nameText) == [] || Strip(intervalText) == [] || Strip(messageText) == []
    ensures r == Failure(BadInterval) <==>
      && Strip(nameText) != [] && Strip(intervalText) != [] && Strip(messageText) != []
      && !(ParseInt(intervalText).Some? && ParseInt(intervalText).value > 0)
    ensures r.Success? ==>
      && r.value.processName == Strip(nameText) && r.value.message == Strip(messageText)
      && Some(r.value.intervalMinutes) == ParseInt(intervalText) && r.value.intervalMinutes > 0
  {
    var name, interval, message := Strip(nameText), Strip(intervalText), Strip(messageText);
    StripIdempotent(intervalText);
    if name == [] || interval == [] || message == [] then Failure(MissingField)
    else
      match ParseInt(interval)
      case None => Failure(BadInterval)
      case Some(n) => if n <= 0 then Failure(BadInterval) else Success(Entry(name, n, message))
  }

  /** Surrounding white space typed into the form makes no difference. */
  lemma CheckInputIgnoresPadding(nameText: string, intervalText: string, messageText: string)
    ensures CheckInput(nameText, intervalText, messageText) == CheckInput(Strip(nameText), Strip(intervalText), Strip(messageText))
  {
    StripIdempotent(nameText);
    StripIdempotent(intervalText);
    StripIdempotent(messageText);
  }
}
