/** The project creation form (src/components/projects/create-project-form.tsx):
    typing a name suggests a project key — the name upper-cased, cut down to
    the characters A-Z and 0-9, first four of them — and the suggestion
    replaces the key field only while that field holds fewer than two
    characters. Characters are taken to be ASCII. */
module ProjectForm {
  import opened Seqs
  import opened ProjectSchema

  /** `toUpperCase` on one ASCII character. */
  function UpperAscii(c: char): char {
    if 'a' <= c <= 'z' then (c as int - 'a' as int + 'A' as int) as char else c
  }

  function Upper(s: string): (r: string)
    ensures |r| == |s| && forall i :: 0 <= i < |s| ==> r[i] == UpperAscii(s[i])
  {
    seq(|s|, i requires 0 <= i < |s| => UpperAscii(s[i]))
  }

  /** `.replace(/[^A-Z0-9]/g, "")`. */
  function KeepKeyChars(s: string): string {
    Filter(s, IsKeyChar)
  }

  const SUGGESTION_LENGTH := 4

  /** `.slice(0, n)`. */
  function Take(s: string, n: nat): (r: string)
    ensures |r| == if |s| <= n then |s| else n
    ensures r == s[..|r|]
  {
    if |s| <= n then s else s[..n]
  }

  /** The key suggested for a name. */
  function SuggestKey(name: string): string {
    Take(KeepKeyChars(Upper(name)), SUGGESTION_LENGTH)
  }

  /** The suggestion holds at most four characters, all of them in A-Z or
      0-9, and is the first four of the name's upper-cased letters and
      digits, in the order they appear in the name. */
  lemma SuggestionShape(name: string)
    ensures var k := SuggestKey(name);
      && |k| <= SUGGESTION_LENGTH
      && (forall i :: 0 <= i < |k| ==> IsKeyChar(k[i]))
      && k == KeepKeyChars(Upper(name))[..|k|]
      && (|KeepKeyChars(Upper(name))| >= SUGGESTION_LENGTH ==> |k| == SUGGESTION_LENGTH)
      && (forall i, j :: 0 <= i < j < |k| ==> InOrder(Upper(name), k[i], k[j]))
      && (forall c :: c in k ==> c in Upper(name))
  {
    var kept := KeepKeyChars(Upper(name));
    var k := SuggestKey(name);
    forall i | 0 <= i < |k| ensures k[i] == kept[i] {
    }
  }

  /** Dropping characters other than A-Z and 0-9 from a name with one more
      character at the end. */
  lemma KeepKeyCharsSnoc(s: string, c: char)
    ensures KeepKeyChars(s + [c]) == KeepKeyChars(s) + (if IsKeyChar(c) then [c] else [])
  {
    FilterAppend(s, [c], IsKeyChar);
    assert [c][1..] == [];
  }

  /** Typing one more character of the name extends the kept characters by
      it when it upper-cases to A-Z or 0-9; so the suggestion changes only
      when that holds and it has fewer than four characters yet. */
  lemma TypingOneMoreCharacter(name: string, c: char)
    ensures KeepKeyChars(Upper(name + [c])) ==
      KeepKeyChars(Upper(name)) + (if IsKeyChar(UpperAscii(c)) then [UpperAscii(c)] else [])
    ensures !IsKeyChar(UpperAscii(c)) || |SuggestKey(name)| == SUGGESTION_LENGTH ==>
      SuggestKey(name + [c]) == SuggestKey(name)
    ensures IsKeyChar(UpperAscii(c)) && |SuggestKey(name)| < SUGGESTION_LENGTH ==>
      SuggestKey(name + [c]) == SuggestKey(name) + [UpperAscii(c)]
  {
    assert Upper(name + [c]) == Upper(name) + [UpperAscii(c)];
    KeepKeyCharsSnoc(Upper(name), UpperAscii(c));
    var kept := KeepKeyChars(Upper(name));
    if IsKeyChar(UpperAscii(c)) && |kept| >= SUGGESTION_LENGTH {
      assert (kept + [UpperAscii(c)])[..SUGGESTION_LENGTH] == kept[..SUGGESTION_LENGTH];
    }
  }

  lemma {:induction false} FilterKeepsAll(s: string)
    requires forall i :: 0 <= i < |s| ==> IsKeyChar(s[i])
    ensures KeepKeyChars(s) == s
  {
    if s != [] {
      FilterKeepsAll(s[1..]);
      assert s == [s[0]] + s[1..];
    }
  }

  /** A suggested key suggests itself. */
  lemma SuggestKeyIdempotent(name: string)
    ensures SuggestKey(SuggestKey(name)) == SuggestKey(name)
  {
    var k := SuggestKey(name);
    SuggestionShape(name);
    assert Upper(k) == k;
    FilterKeepsAll(k);
  }

  /** The suggestion is an acceptable project key exactly when the name has
      at least two letters or digits. */
  lemma SuggestionValidIff(name: string)
    ensures ValidProjectKey(SuggestKey(name)) <==> |KeepKeyChars(Upper(name))| >= 2
  {
    SuggestionShape(name);
  }

  lemma SuggestionExample()
    ensures SuggestKey("Pay") == "PAY"
  {
    assert Upper("Pay") == "PAY";
    FilterKeepsAll("PAY");
  }

  // ----- The overwrite guard -----

  /** `!key || key.length < 2`. */
  predicate KeyMayBeOverwritten(key: string) {
    key == "" || |key| < 2
  }

  /** The key field after a name change. */
  function NextKey(key: string, name: string): string {
    if KeyMayBeOverwritten(key) then SuggestKey(name) else key
  }

  /** A key of two or more characters, typed or suggested, is never
      replaced again by a name change; a shorter one always is. */
  lemma KeyOverwrittenOnlyWhenShort(key: string, name: string)
    ensures |key| >= 2 ==> NextKey(key, name) == key
    ensures |key| < 2 ==> NextKey(key, name) == SuggestKey(name)
  {
  }

  /** A name typed one character at a time fixes the key as soon as two
      letters are in: "P", "Pa", "Pay" leave the key "PA". */
  lemma KeyFreezesAfterTwoCharacters()
    ensures NextKey(NextKey(NextKey("", "P"), "Pa"), "Pay") == "PA"
  {
    assert Upper("P") == "P" && Upper("Pa") == "PA";
    FilterKeepsAll("P");
    FilterKeepsAll("PA");
    assert SuggestKey("Pa") == "PA";
  }

  /** The form hint says 2-10 characters, the schema accepts at most 8: a
      key of 9 letters fits the hint and is rejected, while every accepted
      key fits the hint. */
  const HINT_KEY_MIN := 2
  const HINT_KEY_MAX := 10

  lemma HintDisagreesWithSchema(key: string)
    ensures HINT_KEY_MIN <= |"ABCDEFGHI"| <= HINT_KEY_MAX && !ValidProjectKey("ABCDEFGHI")
    ensures ValidProjectKey(key) ==> HINT_KEY_MIN <= |key| <= HINT_KEY_MAX
  {
  }

  /** The form's fields. */
  class CreateProjectForm {
    var name: string
    var key: string
    var description: string

    /** `defaultValues`: every field empty. */
    constructor ()
      ensures name == "" && key == "" && description == ""
    {
      name := "";
      key := "";
      description := "";
    }

    /** handleNameChange: the name is always set; the key is replaced by the
        suggestion only when it holds fewer than two characters. */
    method HandleNameChange(newName: string)
      modifies this
      ensures name == newName && description == old(description)
      ensures key == NextKey(old(key), newName)
      ensures KeyMayBeOverwritten(old(key)) ==> key == SuggestKey(newName)
      ensures !KeyMayBeOverwritten(old(key)) ==> key == old(key)
    {
      name := newName;
      var suggestedKey := Take(KeepKeyChars(Upper(newName)), SUGGESTION_LENGTH);
      if key == "" || |key| < 2 {
        key := suggestedKey;
      }
    }
  }
}
