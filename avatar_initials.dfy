/** The avatar initials that components/users/UserManagement.tsx and
    components/chat/ChatSidebar.tsx each compute with their own copy of `getInitials`:
    for a name with several space-separated parts, the first characters of the first and
    last parts; otherwise the first two characters; upper-cased.

    The copies differ only in the text between the two initials: nothing on the users
    page, a literal `$` in the chat sidebar. Both index the parts without checking that
    they are empty, so a leading, trailing or doubled space puts the text "undefined" into
    the initials. `InitialsAsWritten` is the code as it stands; `Initials` is the intended
    rule, taken over the non-empty words. */
module AvatarInitials {
  import opened Common

  /** `${s[0]}` in a template: the first character, or the text JavaScript gives for the
      missing character of an empty string. */
  function FirstCharText(s: string): (r: string)
    ensures s != "" ==> r == [s[0]]
    ensures s == "" ==> r == "undefined"
  {
    if s == "" then "undefined" else [s[0]]
  }

  /** `s.substring(0, 2)` */
  function Prefix2(s: string): (r: string)
    ensures |r| <= 2 && StartsWith(s, r)
    ensures |s| >= 2 ==> |r| == 2
    ensures |s| < 2 ==> r == s
  {
    if |s| < 2 then s else s[..2]
  }

  /** `getInitials` as written; `between` is the text the template puts between the two
      initials. */
  function InitialsAsWritten(name: string, between: string): string {
    var parts := Split(name, ' ');
    if |parts| > 1 then Upper(FirstCharText(parts[0]) + between + FirstCharText(parts[|parts| - 1]))
    else Upper(Prefix2(name))
  }

  /** A name of two words gives the upper-cased first letter of each, `between` between
      them. */
  lemma InitialsOfTwoWords(first: string, last: string, between: string)
    requires first != "" && last != "" && ' ' !in first && ' ' !in last
    ensures InitialsAsWritten(first + " " + last, between) == Upper([first[0]] + between + [last[0]])
  {
    SplitAppend(first, ' ', last);
    SplitNoSep(last, ' ');
    assert first + " " + last == first + [' '] + last;
  }

  /** A single word gives its first two characters, upper-cased. */
  lemma InitialsOfOneWord(word: string, between: string)
    requires ' ' !in word
    ensures InitialsAsWritten(word, between) == Upper(Prefix2(word))
    ensures |InitialsAsWritten(word, between)| <= 2
  {
    SplitNoSep(word, ' ');
  }

  /** As written, a name with a leading space, " Ann", gets the initials "UNDEFINEDA". */
  lemma LeadingSpaceAsWritten()
    ensures InitialsAsWritten(" Ann", "") == "UNDEFINEDA"
  {
    SplitNoSep("Ann", ' ');
    assert " Ann" == "" + [' '] + "Ann";
    SplitAppend("", ' ', "Ann");
    assert Split(" Ann", ' ') == ["", "Ann"];
    assert Upper("undefinedA") == "UNDEFINEDA";
  }

  /** As written, the chat sidebar shows "John Doe" as "J$D": three characters with a
      dollar sign. */
  lemma DollarAsWritten()
    ensures InitialsAsWritten("John Doe", "$") == "J$D"
  {
    assert "John Doe" == "John" + " " + "Doe";
    InitialsOfTwoWords("John", "Doe", "$");
    assert ['J'] + "$" + ['D'] == "J$D";
    assert Upper("J$D") == "J$D";
  }

  // ---------------------------------------------------------------------------
  // The intended rule
  // ---------------------------------------------------------------------------

  /** Every character of a piece of `split` comes from the input. */
  lemma {:induction false} SplitPieceChars(s: string, sep: char)
    ensures forall k, c :: 0 <= k < |Split(s, sep)| && c in Split(s, sep)[k] ==> c in s
  {
    if |s| > 0 {
      SplitPieceChars(s[1..], sep);
      assert forall c :: c in s[1..] ==> c in s;
    }
  }

  /** The words of a name: its space-separated parts that are not empty. */
  function Words(name: string): (r: seq<string>)
    ensures forall k :: 0 <= k < |r| ==> r[k] != "" && ' ' !in r[k]
    ensures forall k, c :: 0 <= k < |r| && c in r[k] ==> c in name
  {
    var parts := Split(name, ' ');
    SplitPieceChars(name, ' ');
    Filter(parts, NonEmpty())
  }

  /** The initials of the first and last words, or the first two characters of a single
      word, upper-cased. */
  function Initials(name: string): (r: string)
    ensures |r| <= 2
    ensures ' ' !in r
    ensures forall i :: 0 <= i < |r| ==> r[i] in Upper(name)
    ensures |Words(name)| > 1 ==> r == Upper([Words(name)[0][0], Words(name)[|Words(name)| - 1][0]])
  {
    var words := Words(name);
    var letters :=
      if |words| > 1 then [words[0][0], words[|words| - 1][0]]
      else if |words| == 1 then Prefix2(words[0])
      else "";
    assert forall c :: c in letters ==> c in name && c != ' ' by {
      if |words| == 1 {
        assert forall c :: c in letters ==> c in words[0];
      }
    }
    UpperFrom(letters, name);
    Upper(letters)
  }

  /** Upper-casing letters taken from a name gives letters of the upper-cased name, and
      no space. */
  lemma UpperFrom(letters: string, name: string)
    requires forall c :: c in letters ==> c in name && c != ' '
    ensures forall i :: 0 <= i < |letters| ==> Upper(letters)[i] in Upper(name) && Upper(letters)[i] != ' '
  {
    forall i | 0 <= i < |letters|
      ensures Upper(letters)[i] in Upper(name) && Upper(letters)[i] != ' '
    {
      var c := letters[i];
      assert c in letters && Upper(letters)[i] == UpperChar(c);
      var j :| 0 <= j < |name| && name[j] == c;
      assert Upper(name)[j] == Upper(letters)[i];
    }
  }

  /** On a name without leading, trailing or doubled spaces the code as written and the
      intended rule agree, between-text "" aside. */
  lemma InitialsAgree(name: string)
    requires forall k :: 0 <= k < |Split(name, ' ')| ==> Split(name, ' ')[k] != ""
    ensures InitialsAsWritten(name, "") == Initials(name)
  {
    var parts := Split(name, ' ');
    FilterAll(parts, NonEmpty());
    if |parts| == 1 {
      JoinSplit(name, ' ');
    } else {
      assert FirstCharText(parts[0]) + "" + FirstCharText(parts[|parts| - 1]) == [parts[0][0], parts[|parts| - 1][0]];
    }
  }
}
