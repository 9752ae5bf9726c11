/**
 * `getInitials` of the page header (client/src/components/Header.tsx): the
 * avatar letters shown for a user's name.
 */
module Header {
  import opened Text

  /** The first character of a field, nothing for an empty one: `n[0]`, which `join` renders as "". */
  function Head(part: string): string {
    if part == "" then "" else [part[0]]
  }

  /** `.map(n => n[0]).join('')`. */
  function Heads(parts: seq<string>): string {
    if parts == [] then "" else Head(parts[0]) + Heads(parts[1..])
  }

  /**
   * Reference definition, by position: the characters of `s` that are not
   * spaces and follow a space or, when `atStart`, begin `s`.
   */
  function WordInitials(s: string, atStart: bool): string {
    if s == [] then ""
    else if s[0] == ' ' then WordInitials(s[1..], true)
    else (if atStart then [s[0]] else "") + WordInitials(s[1..], false)
  }

  /** The heads of the space-split are the word initials; after the first field, those of a word already begun. */
  lemma {:induction false} HeadsOfSplit(s: string)
    ensures Heads(Split(s, ' ')) == WordInitials(s, true)
    ensures Heads(Split(s, ' ')[1..]) == WordInitials(s, false)
  {
    if s != [] {
      HeadsOfSplit(s[1..]);
      var rest := Split(s[1..], ' ');
      if s[0] == ' ' {
        assert Split(s, ' ') == [""] + rest;
        assert Split(s, ' ')[1..] == rest;
      } else {
        var parts := Split(s, ' ');
        assert parts == [[s[0]] + rest[0]] + rest[1..];
        assert parts[1..] == rest[1..];
        assert Heads(parts) == [s[0]] + Heads(rest[1..]);
      }
    }
  }

  /** A name with no space has one initial, its first character. */
  lemma {:induction false} OneWordInitial(s: string, atStart: bool)
    requires ' ' !in s
    ensures s != [] && atStart ==> WordInitials(s, atStart) == [s[0]]
    ensures s == [] || !atStart ==> WordInitials(s, atStart) == ""
  {
    if s != [] {
      OneWordInitial(s[1..], false);
    }
  }

  /** A name of spaces only has no initials. */
  lemma {:induction false} SpacesHaveNoInitials(s: string, atStart: bool)
    requires forall i :: 0 <= i < |s| ==> s[i] == ' '
    ensures WordInitials(s, atStart) == ""
  {
    if s != [] {
      SpacesHaveNoInitials(s[1..], true);
    }
  }

  /**
   * getInitials: "U" for an empty name, otherwise the upper-cased initials
   * of the space-separated words, at most two of them.
   */
  function GetInitials(name: string): (r: string)
    ensures name == "" ==> r == "U"
    ensures name != "" ==> r == Prefix(ToUpper(WordInitials(name, true)), 2)
    ensures |r| <= 2
  {
    if name == "" then "U"
    else
      HeadsOfSplit(name);
      Prefix(ToUpper(Heads(Split(name, ' '))), 2)
  }

  /** A name of spaces only yields "", not "U". */
  lemma BlankNameHasNoInitials(name: string)
    requires name != "" && forall i :: 0 <= i < |name| ==> name[i] == ' '
    ensures GetInitials(name) == ""
  {
    SpacesHaveNoInitials(name, true);
  }

  /** The first letter of a name that starts with a letter comes first, upper-cased. */
  lemma FirstInitial(name: string)
    requires name != "" && name[0] != ' '
    ensures GetInitials(name) != "" && GetInitials(name)[0] == UpperChar(name[0])
  {
  }

  /** Within a word, only its first character can be an initial; what follows is read as after a word. */
  lemma {:induction false} WordThenRest(a: string, rest: string, atStart: bool)
    requires a != [] && ' ' !in a
    ensures WordInitials(a + rest, atStart) == (if atStart then [a[0]] else "") + WordInitials(rest, false)
  {
    var x := a + rest;
    assert x[0] == a[0] && x[1..] == a[1..] + rest;
    if |a| > 1 {
      WordThenRest(a[1..], rest, false);
    } else {
      assert x[1..] == rest;
    }
  }

  /** Two words separated by one space give the two upper-cased first letters. */
  lemma TwoWordInitials(a: string, b: string)
    requires a != [] && ' ' !in a && b != [] && ' ' !in b
    ensures GetInitials(a + " " + b) == [UpperChar(a[0]), UpperChar(b[0])]
  {
    assert a + " " + b == a + (" " + b);
    WordThenRest(a, " " + b, true);
    assert (" " + b)[1..] == b;
    OneWordInitial(b, true);
    assert WordInitials(a + " " + b, true) == [a[0], b[0]];
  }

  lemma TwoWordExample()
    ensures GetInitials("john doe") == "JD"
  {
    TwoWordInitials("john", "doe");
    assert "john" + " " + "doe" == "john doe";
  }

  lemma OneWordExample()
    ensures GetInitials("ada") == "A"
  {
    OneWordInitial("ada", true);
  }
}
