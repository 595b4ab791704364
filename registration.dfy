/** The registration form: a record of four text fields updated one field at
    a time, the label shown for each field (derived from its camelCase name)
    and the HTML input type chosen for it. */
module Registration {
  import opened JsString

  /** `Object.keys` of the form data: each field exactly once, in the order
      the record is written. */
  function FieldOrder(): (r: seq<string>)
    ensures forall k :: k in r <==> k in InitialFormData()
    ensures forall i, j :: 0 <= i < j < |r| ==> r[i] != r[j]
  {
    ["name", "contactNo", "whatsappNo", "email"]
  }

  /** The form data at mount: exactly the four fields, all empty. */
  function InitialFormData(): (m: map<string, string>)
    ensures m.Keys == {"name", "contactNo", "whatsappNo", "email"}
    ensures forall k :: k in m ==> m[k] == ""
  {
    map["name" := "", "contactNo" := "", "whatsappNo" := "", "email" := ""]
  }

  /** The label of a field: its first character upper-cased, followed by the
      rest of the name with a space put before every upper-case letter, and
      surrounding whitespace of that rest trimmed. */
  function Label(field: string): (r: string)
    ensures field == [] ==> r == []
    ensures field != [] ==> r != [] && r[0] == ToUpperChar(field[0])
  {
    if field == [] then [] else [ToUpperChar(field[0])] + Trim(SpaceBeforeUpper(field[1..]))
  }

  /** The input type of a field: "tel" when the name contains "No", else
      "email" for the field named exactly "email", else "text". */
  function InputType(field: string): (t: string)
    ensures t == "tel" <==> Includes(field, "No")
    ensures t == "email" <==> !Includes(field, "No") && field == "email"
    ensures t == "text" <==> !Includes(field, "No") && field != "email"
  {
    if Includes(field, "No") then "tel" else if field == "email" then "email" else "text"
  }

  /** For a field name without whitespace, deleting the spaces from the label
      gives back the name with its first character upper-cased. */
  lemma {:induction false} LabelUnspaced(field: string)
    requires field != [] && NoWhitespace(field)
    ensures Unspaced(Label(field)) == [ToUpperChar(field[0])] + field[1..]
  {
    var rest := field[1..];
    var spaced := SpaceBeforeUpper(rest);
    SpaceBeforeUpperChars(rest);
    SpaceBeforeUpperUnspaced(rest);
    assert forall i :: 0 <= i < |spaced| && IsWhitespace(spaced[i]) ==> spaced[i] == ' ';
    UnspacedTrim(spaced);
    UnspacedIdentity(rest);
    UnspacedAppend([ToUpperChar(field[0])], Trim(spaced));
    assert Unspaced([ToUpperChar(field[0])]) == [ToUpperChar(field[0])] by {
      assert !IsWhitespace(field[0]);
      assert [ToUpperChar(field[0])][1..] == [];
    }
  }

  /** For a field name without whitespace, the label is the upper-cased first
      character, the second character as it is, and then the rest of the name
      with one space before each upper-case letter: an upper-case letter in
      second position gets no space, because `trim` removes it. */
  lemma {:induction false} LabelSpacing(field: string)
    requires |field| >= 2 && NoWhitespace(field)
    ensures Label(field) == [ToUpperChar(field[0]), field[1]] + SpaceBeforeUpper(field[2..])
  {
    var u := ToUpperChar(field[0]);
    var rest := SpaceBeforeUpper(field[2..]);
    var trimmed := Trim(SpaceBeforeUpper(field[1..]));
    assert trimmed == [field[1]] + rest by {
      RestTrimmed(field);
    }
    calc {
      Label(field);
      [u] + trimmed;
      [u] + ([field[1]] + rest);
      [u, field[1]] + rest;
    }
  }

  /** `trim` on the spaced rest of a field name without whitespace removes
      exactly the space put before an upper-case second character. */
  lemma {:induction false} RestTrimmed(field: string)
    requires |field| >= 2 && NoWhitespace(field)
    ensures TrimEnd(TrimStart(SpaceBeforeUpper(field[1..]))) == [field[1]] + SpaceBeforeUpper(field[2..])
  {
    var kept := [field[1]] + SpaceBeforeUpper(field[2..]);
    var spaced := SpaceBeforeUpper(field[1..]);
    assert field[1..][1..] == field[2..];
    assert !IsWhitespace(field[1]);
    if IsAsciiUpper(field[1]) {
      assert spaced == [' '] + kept;
      assert spaced[1..] == kept;
    } else {
      assert spaced == kept;
    }
    assert TrimStart(spaced) == kept;
    if field[2..] != [] {
      assert kept[|kept| - 1] == field[|field| - 1];
    }
    assert TrimEnd(kept) == kept;
  }

  /** A name made of one lower-case word, such as "name" or "email", is
      labelled by that word capitalised. */
  lemma {:induction false} LabelOneWord(word: string)
    requires word != [] && AllLower(word)
    ensures Label(word) == [ToUpperChar(word[0])] + word[1..]
  {
    if |word| >= 2 {
      assert NoWhitespace(word) by {
        forall i | 0 <= i < |word| ensures !IsWhitespace(word[i]) {
          assert IsAsciiLower(word[i]);
        }
      }
      assert SpaceBeforeUpper(word[2..]) == word[2..] by {
        SpaceBeforeUpperNoUpper(word[2..]);
      }
      calc {
        Label(word);
        { LabelSpacing(word); }
        [ToUpperChar(word[0]), word[1]] + SpaceBeforeUpper(word[2..]);
        [ToUpperChar(word[0]), word[1]] + word[2..];
        { assert word[1..] == [word[1]] + word[2..]; }
        [ToUpperChar(word[0])] + word[1..];
      }
    } else {
      assert word[1..] == [];
    }
  }

  /** A camelCase name of two words, such as "contactNo" or "whatsappNo", is
      labelled by the capitalised first word, a space and the second word. */
  lemma {:induction false} LabelTwoWords(first: string, second: string)
    requires |first| >= 2 && AllLower(first)
    requires second != [] && IsAsciiUpper(second[0]) && AllLower(second[1..])
    ensures Label(first + second) == [ToUpperChar(first[0])] + first[1..] + [' '] + second
  {
    var field := first + second;
    assert field[0] == first[0] && field[1..] == first[1..] + second;
    var spaced := first[1..] + [' '] + second;
    assert Trim(SpaceBeforeUpper(first[1..] + second)) == spaced by {
      TwoWordsRest(first, second);
    }
    assert Label(field) == [ToUpperChar(first[0])] + spaced;
  }

  /** The rest of a two-word camelCase name, spaced and trimmed. */
  lemma {:induction false} TwoWordsRest(first: string, second: string)
    requires |first| >= 2 && AllLower(first)
    requires second != [] && IsAsciiUpper(second[0]) && AllLower(second[1..])
    ensures Trim(SpaceBeforeUpper(first[1..] + second)) == first[1..] + [' '] + second
  {
    var spaced := first[1..] + [' '] + second;
    assert SpaceBeforeUpper(first[1..] + second) == spaced by {
      SpaceBeforeUpperTwoWords(first[1..], second);
    }
    assert spaced[0] == first[1] && IsAsciiLower(first[1]);
    assert spaced[|spaced| - 1] == second[|second| - 1];
    if |second| > 1 {
      assert second[|second| - 1] == second[1..][|second| - 2];
    }
    TrimUntouched(spaced);
  }

  /** The input types the form uses for its four fields, in field order. */
  lemma {:induction false} FieldInputTypes()
    ensures seq(|FieldOrder()|, i requires 0 <= i < |FieldOrder()| => InputType(FieldOrder()[i]))
            == ["text", "tel", "tel", "email"]
  {
    assert OccursAt("contactNo", "No", 7);
    assert OccursAt("whatsappNo", "No", 8);
    NoCapitalN("name");
    NoCapitalN("email");
  }

  /** Only the field named exactly "email" gets the "email" input type. */
  lemma {:induction false} EmailTypeOnlyForEmail(field: string)
    ensures InputType(field) == "email" <==> field == "email"
  {
    NoCapitalN("email");
  }

  /** A name without the letter `N` does not contain "No". */
  lemma {:induction false} NoCapitalN(s: string)
    requires forall i :: 0 <= i < |s| ==> s[i] != 'N'
    ensures !Includes(s, "No")
  {
    forall i | 0 <= i && i + 2 <= |s| ensures !OccursAt(s, "No", i) {
      assert s[i..i + 2][0] == s[i];
    }
  }

  /** The form component's state: the current form data. */
  class QuizForm {
    var formData: map<string, string>

    constructor ()
      ensures formData == InitialFormData()
    {
      formData := InitialFormData();
    }

    /** A keystroke in field `name`: that field takes the new value and every
        other field keeps its value. */
    method HandleChange(name: string, value: string)
      modifies this
      ensures name in formData && formData[name] == value
      ensures forall k :: k != name ==> (k in formData <==> k in old(formData))
      ensures forall k :: k != name && k in formData ==> formData[k] == old(formData)[k]
      ensures name in old(formData) ==> formData.Keys == old(formData).Keys
    {
      formData := formData[name := value];
    }

    /** Submitting the form prevents the browser's default action and hands
        the unchanged form data to the log. */
    method HandleSubmit() returns (logged: map<string, string>)
      ensures logged == formData
    {
      logged := formData;
    }
  }
}
