/** The console client's input checks (client/main.go): the item-name
    pattern and the quantity check applied before a request is sent. */
module Client {
  import opened Text

  /** `[\w ]`: a word character or a space. */
  predicate IsWordOrSpace(c: char) {
    IsWordChar(c) || c == ' '
  }

  /** `^[A-Za-z]+[\w ]+$`: a non-empty run of letters followed by a
      non-empty run of word characters and spaces. */
  predicate MatchesNamePattern(s: string) {
    exists i | 1 <= i < |s| :: AllLetters(s[..i]) && forall j | i <= j < |s| :: IsWordOrSpace(s[j])
  }

  /** The pattern says no more than: at least two characters, a letter
      first, and only word characters and spaces after it. */
  lemma NamePatternShape(s: string)
    ensures MatchesNamePattern(s) <==>
      |s| >= 2 && IsLetter(s[0]) && forall j | 1 <= j < |s| :: IsWordOrSpace(s[j])
  {
    if MatchesNamePattern(s) {
      var i :| 1 <= i < |s| && AllLetters(s[..i]) && forall j | i <= j < |s| :: IsWordOrSpace(s[j]);
      assert s[..i][0] == s[0];
      forall j | 1 <= j < i
        ensures IsWordOrSpace(s[j])
      {
        assert s[..i][j] == s[j];
      }
    } else if |s| >= 2 && IsLetter(s[0]) && forall j | 1 <= j < |s| :: IsWordOrSpace(s[j]) {
      assert AllLetters(s[..1]);
      assert false;
    }
  }

  /** isValidString: the pattern matches and the name is at most 32 bytes
      long. The pattern already rules out names shorter than two
      characters, so the length check's lower bound never decides. */
  function IsValidString(t: string): (ok: bool)
    ensures ok <==> 2 <= |t| <= 32 && IsLetter(t[0]) && forall j | 1 <= j < |t| :: IsWordOrSpace(t[j])
  {
    NamePatternShape(t);
    if MatchesNamePattern(t) then !(|t| < 1 || |t| > 32) else false
  }

  /** isValidInt: a quantity is valid when it is not negative. */
  function IsValidInt(d: int): (ok: bool)
    ensures ok <==> d >= 0
  {
    if d < 0 then false else true
  }
}
