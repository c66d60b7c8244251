/** Worker ids as strings: ValidateWorkerID of internal/server/server.go. */
module Names {
  import opened Wrappers

  const SEPARATOR := '~'

  const MAX_WORKER_ID: nat := 128

  predicate LetterOrDigit(c: char) {
    'A' <= c <= 'Z' || 'a' <= c <= 'z' || '0' <= c <= '9'
  }

  predicate IdChar(c: char) {
    LetterOrDigit(c) || c == '.' || c == '_' || c == '-'
  }

  /** A letter or digit, then letters, digits, dots, underscores and dashes. */
  predicate WellFormedName(name: string) {
    name != "" && LetterOrDigit(name[0]) && forall i :: 0 <= i < |name| ==> IdChar(name[i])
  }

  predicate ValidWorkerId(id: string) {
    id != "" && |id| <= MAX_WORKER_ID && SEPARATOR !in id && WellFormedName(id)
  }

  /** The characters of a name by their ASCII codes. */
  lemma {:induction false} IdCharsAre(c: char)
    ensures LetterOrDigit(c) <==> 48 <= c as int <= 57 || 65 <= c as int <= 90 || 97 <= c as int <= 122
    ensures IdChar(c) <==> LetterOrDigit(c) || 45 <= c as int <= 46 || c as int == 95
  {
  }

  /** A worker id is one to 128 such characters and no separator of delegated ids. */
  lemma {:induction false} ValidIdsAre(id: string)
    ensures ValidWorkerId(id) <==>
              1 <= |id| <= 128 && LetterOrDigit(id[0]) && forall c :: c in id ==> IdChar(c)
    ensures ValidWorkerId(id) ==> '~' !in id
  {
    if id != "" && forall c :: c in id ==> IdChar(c) {
      assert !IdChar('~');
      assert forall i :: 0 <= i < |id| ==> id[i] in id;
    }
  }

  // ----- The enumeration of all strings that numbers the ids -----

  /** How many characters there are: all code points but the surrogates. */
  const CHARS: nat := 0x10F800

  const SURROGATES: nat := 0xD800

  function Code(c: char): (k: nat)
    ensures k < CHARS
  {
    if c as nat < SURROGATES then c as nat else c as nat - 0x800
  }

  function CharAt(k: nat): (c: char)
    requires k < CHARS
    ensures Code(c) == k
  {
    if k < SURROGATES then k as char else (k + 0x800) as char
  }

  /** The number of a string: its digits are its characters, counted from one. */
  function IdOf(text: string): Id {
    if text == "" then NOBODY
    else IdOf(text[..|text| - 1]) * CHARS + Code(text[|text| - 1]) + 1
  }

  function TextOf(id: Id): string {
    if id == NOBODY then "" else TextOf((id - 1) / CHARS) + [CharAt((id - 1) % CHARS)]
  }

  /** Every string has a number of its own. */
  lemma {:induction false} TextOfId(text: string)
    ensures TextOf(IdOf(text)) == text
  {
    if text != "" {
      var init, last := text[..|text| - 1], text[|text| - 1];
      TextOfId(init);
      Digits(IdOf(init), Code(last));
      assert CharAt(Code(last)) == last;
      assert text == init + [last];
    }
  }

  /** And every number is the number of a string. */
  lemma {:induction false} IdOfText(id: Id)
    ensures IdOf(TextOf(id)) == id
  {
    if id != NOBODY {
      var rest, last := TextOf((id - 1) / CHARS), CharAt((id - 1) % CHARS);
      IdOfText((id - 1) / CHARS);
      assert TextOf(id) == rest + [last];
      assert (rest + [last])[..|rest|] == rest;
    }
  }

  lemma {:induction false} Digits(high: nat, low: nat)
    requires low < CHARS
    ensures (high * CHARS + low) / CHARS == high && (high * CHARS + low) % CHARS == low
  {
  }

  /** The id is one a worker may connect under. */
  predicate Named(id: Id) {
    ValidWorkerId(TextOf(id))
  }

  lemma {:induction false} NamedExactly(text: string)
    ensures Named(IdOf(text)) <==> ValidWorkerId(text)
    ensures IdOf(text) == NOBODY <==> text == ""
  {
    TextOfId(text);
  }
}
