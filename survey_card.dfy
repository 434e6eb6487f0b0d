/** The survey card on the overview (src/components/surveys/SurveyCard.tsx):
    the status badge's colour class, the assigned employees' initials,
    at most three avatars and a "+n" badge for the rest. */
module SurveyCard {
  import opened Types
  import opened Text

  const DraftClass := "bg-survey-draft text-white"
  const ActiveClass := "bg-survey-active text-white"
  const ClosedClass := "bg-survey-closed text-white"
  const DefaultClass := "bg-gray-500 text-white"

  /** getStatusColor: a switch on the lowercased status. */
  function StatusColor(status: string): (r: string)
    ensures r == DraftClass <==> Lower(status) == "draft"
    ensures r == ActiveClass <==> Lower(status) == "active"
    ensures r == ClosedClass <==> Lower(status) == "closed"
    ensures r == DefaultClass <==> Lower(status) !in {"draft", "active", "closed"}
  {
    match Lower(status)
    case "draft" => DraftClass
    case "active" => ActiveClass
    case "closed" => ClosedClass
    case _ => DefaultClass
  }

  /** Every status the type allows gets its own colour, never the grey one. */
  lemma EveryStatusHasColor(st: SurveyStatus)
    ensures StatusColor(StatusName(st)) != DefaultClass
    ensures StatusColor(StatusName(st)) == match st
                                           case Draft => DraftClass
                                           case Active => ActiveClass
                                           case Closed => ClosedClass
  {
    assert Lower("Draft") == "draft";
    assert Lower("Active") == "active";
    assert Lower("Closed") == "closed";
  }

  /** `s.split(sep)`: the pieces between separators, empty ones included;
      `"".split(sep)` is `[""]`. */
  function Split(s: string, sep: char): (parts: seq<string>)
    ensures |parts| >= 1
    ensures forall i :: 0 <= i < |parts| ==> sep !in parts[i]
    decreases |s|
  {
    if s == [] then [""]
    else
      var rest := Split(s[1..], sep);
      if s[0] == sep then [""] + rest
      else [[s[0]] + rest[0]] + rest[1..]
  }

  /** `parts.join(sep)`. */
  function Join(parts: seq<string>, sep: char): (r: string)
    requires |parts| >= 1
    ensures parts[0] <= r
    ensures |r| >= |parts| - 1
    decreases |parts|
  {
    if |parts| == 1 then parts[0] else parts[0] + [sep] + Join(parts[1..], sep)
  }

  /** Splitting loses nothing: joining the pieces back gives the string. */
  lemma {:induction false} JoinSplit(s: string, sep: char)
    ensures Join(Split(s, sep), sep) == s
    decreases |s|
  {
    if s != [] {
      JoinSplit(s[1..], sep);
      var rest := Split(s[1..], sep);
      var parts := Split(s, sep);
      if s[0] == sep {
        assert parts[1..] == rest;
      } else {
        if |rest| > 1 {
          assert parts[1..] == rest[1..];
          assert parts[0] + [sep] + Join(parts[1..], sep) == [s[0]] + (rest[0] + [sep] + Join(rest[1..], sep));
        }
      }
    }
  }

  /** Splitting a string that starts with a separator-free piece `p`:
      `p` opens the first part. */
  lemma {:induction false} SplitAfterPiece(p: string, t: string, sep: char)
    requires sep !in p
    ensures Split(p + t, sep) == [p + Split(t, sep)[0]] + Split(t, sep)[1..]
    decreases |p|
  {
    if p != [] {
      SplitAfterPiece(p[1..], t, sep);
      assert (p + t)[1..] == p[1..] + t;
      assert (p + t)[0] == p[0];
      assert [p[0]] + (p[1..] + Split(t, sep)[0]) == p + Split(t, sep)[0];
    } else {
      var parts := Split(t, sep);
      assert p + t == t;
      assert parts == [parts[0]] + parts[1..];
      assert p + parts[0] == parts[0];
    }
  }

  /** The other round trip: pieces without the separator, joined, split
      back into the same pieces. With JoinSplit, Join is the inverse of
      Split. */
  lemma {:induction false} SplitJoin(parts: seq<string>, sep: char)
    requires |parts| >= 1
    requires forall i :: 0 <= i < |parts| ==> sep !in parts[i]
    ensures Split(Join(parts, sep), sep) == parts
    decreases |parts|
  {
    if |parts| == 1 {
      SplitAfterPiece(parts[0], "", sep);
      assert parts[0] + "" == parts[0];
    } else {
      var u := Join(parts[1..], sep);
      SplitJoin(parts[1..], sep);
      SplitAfterPiece(parts[0], [sep] + u, sep);
      assert parts[0] + [sep] + u == parts[0] + ([sep] + u);
      assert ([sep] + u)[1..] == u;
      assert parts[0] + "" == parts[0];
      assert parts == [parts[0]] + parts[1..];
    }
  }

  /** `parts.map(part => part[0]).join('')`: an empty part yields undefined,
      which `join` writes as nothing. */
  function FirstLetters(parts: seq<string>): (r: string)
    ensures |r| <= |parts|
    ensures (forall i :: 0 <= i < |parts| ==> parts[i] != "") ==> |r| == |parts|
    ensures (forall i :: 0 <= i < |parts| ==> parts[i] == "") ==> r == ""
    decreases |parts|
  {
    if parts == [] then ""
    else (if parts[0] == "" then "" else [parts[0][0]]) + FirstLetters(parts[1..])
  }

  /** One part contributes its first character, or nothing when empty. */
  lemma FirstLettersOfPart(p: string)
    ensures FirstLetters([p]) == if p == "" then "" else [p[0]]
  {
    assert [p][1..] == [];
  }

  /** A part followed by more parts: its letter, then theirs. */
  lemma FirstLettersCons(p: string, rest: seq<string>)
    ensures FirstLetters([p] + rest) == (if p == "" then "" else [p[0]]) + FirstLetters(rest)
  {
    assert ([p] + rest)[1..] == rest;
  }

  /** The letters of a concatenation are the letters of each half in
      order; with FirstLettersOfPart this fixes the result: the first
      character of each non-empty part, in order. */
  lemma {:induction false} FirstLettersAppend(a: seq<string>, b: seq<string>)
    ensures FirstLetters(a + b) == FirstLetters(a) + FirstLetters(b)
    decreases |a|
  {
    if a == [] {
      assert a + b == b;
    } else {
      var p, x := a[0], a[1..];
      var head := if p == "" then "" else [p[0]];
      assert a == [p] + x;
      assert a + b == [p] + (x + b);
      FirstLettersAppend(x, b);
      FirstLettersCons(p, x);
      FirstLettersCons(p, x + b);
      var fx, fb := FirstLetters(x), FirstLetters(b);
      assert FirstLetters(a + b) == head + (fx + fb);
      assert FirstLetters(a) == head + fx;
      Associative(head, fx, fb);
    }
  }

  lemma Associative(x: string, y: string, z: string)
    ensures x + (y + z) == (x + y) + z
  {
  }

  /** The characters that start a word: not a space, and at the beginning
      or right after a space. `afterSpace` says whether the preceding
      character was a space (or there was none). */
  function WordStartsFrom(s: string, afterSpace: bool): (r: string)
    ensures |r| <= |s|
    ensures forall i :: 0 <= i < |r| ==> r[i] != ' '
    decreases |s|
  {
    if s == [] then ""
    else (if afterSpace && s[0] != ' ' then [s[0]] else "") + WordStartsFrom(s[1..], s[0] == ' ')
  }

  function WordStarts(s: string): string
  {
    WordStartsFrom(s, true)
  }

  lemma {:induction false} FirstLettersOfSplit(s: string)
    ensures FirstLetters(Split(s, ' ')) == WordStartsFrom(s, true)
    ensures FirstLetters(Split(s, ' ')[1..]) == WordStartsFrom(s, false)
    decreases |s|
  {
    if s != [] {
      FirstLettersOfSplit(s[1..]);
      var rest := Split(s[1..], ' ');
      var parts := Split(s, ' ');
      if s[0] == ' ' {
        assert parts[1..] == rest;
      } else {
        assert parts[1..] == rest[1..];
        assert parts[0][0] == s[0];
      }
    }
  }

  /** getInitials. */
  function GetInitials(name: string): (r: string)
    ensures r == Upper(WordStarts(name))
  {
    FirstLettersOfSplit(name);
    Upper(FirstLetters(Split(name, ' ')))
  }

  lemma InitialsOfEmptyName()
    ensures GetInitials("") == ""
  {
  }

  /** Position `i` of `s` starts a word: a non-space at the beginning (when
      `afterSpace`) or right after a space. */
  ghost predicate IsWordStart(s: string, i: int, afterSpace: bool)
  {
    0 <= i < |s| && s[i] != ' ' && (if i == 0 then afterSpace else s[i - 1] == ' ')
  }

  /** Every letter WordStartsFrom collects is taken from a word start. */
  lemma {:induction false} WordStartsAreWordStarts(s: string, afterSpace: bool, k: nat)
    requires k < |WordStartsFrom(s, afterSpace)|
    ensures exists i :: IsWordStart(s, i, afterSpace) && WordStartsFrom(s, afterSpace)[k] == s[i]
    decreases |s|
  {
    var head := if afterSpace && s[0] != ' ' then [s[0]] else "";
    var tail := WordStartsFrom(s[1..], s[0] == ' ');
    assert WordStartsFrom(s, afterSpace) == head + tail;
    if k < |head| {
      assert IsWordStart(s, 0, afterSpace) && WordStartsFrom(s, afterSpace)[k] == s[0];
    } else {
      WordStartsAreWordStarts(s[1..], s[0] == ' ', k - |head|);
      var j :| IsWordStart(s[1..], j, s[0] == ' ') && tail[k - |head|] == s[1..][j];
      assert IsWordStart(s, j + 1, afterSpace) && WordStartsFrom(s, afterSpace)[k] == s[j + 1];
    }
  }

  /** Every initial is the uppercased first letter of a word of the name. */
  lemma InitialsComeFromWords(name: string, k: nat)
    requires k < |GetInitials(name)|
    ensures exists i :: IsWordStart(name, i, true) && GetInitials(name)[k] == UpperChar(name[i])
  {
    WordStartsAreWordStarts(name, true, k);
  }

  const MaxAvatars := 3

  /** `assignedEmployees.slice(0, 3)`. */
  function ShownAvatars(employees: seq<User>): (r: seq<User>)
    ensures |r| <= MaxAvatars
    ensures |r| == if |employees| < MaxAvatars then |employees| else MaxAvatars
    ensures r == employees[..|r|]
  {
    if |employees| <= MaxAvatars then employees else employees[..MaxAvatars]
  }

  /** The "+n" badge: present only beyond three employees. */
  function OverflowCount(employees: seq<User>): (r: Option<nat>)
    ensures r.Some? <==> |employees| > MaxAvatars
    ensures r.Some? ==> r.value == |employees| - MaxAvatars && r.value > 0
  {
    if |employees| > MaxAvatars then Some(|employees| - MaxAvatars) else None
  }

  /** Avatars and badge together account for every assigned employee. */
  lemma AvatarsAndBadgeCoverAll(employees: seq<User>)
    ensures |ShownAvatars(employees)| + (match OverflowCount(employees) case Some(n) => n case None => 0)
            == |employees|
  {
  }
}
