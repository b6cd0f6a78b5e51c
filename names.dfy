/**
 * Profile-name validation, as performed by each of the three name prompts of
 * the save manager (first run, rename current profile, create new profile).
 *
 * A name is accepted when, once every `-` and `_` is removed, what remains is
 * a non-empty run of letters and digits, and the absolute path of the archive
 * file `...\SUPERHOT_VR\VRsuper.hot.<name>` is at most 247 characters long.
 * The length of that path up to and including `VRsuper.hot.` depends on the
 * user's profile directory; it is the parameter `prefixLen`.
 */
module Names {
  import opened Wrappers

  /** The longest absolute save path the manager accepts. */
  const MaxPathChars: nat := 247

  predicate IsSeparator(c: char) {
    c == '-' || c == '_'
  }

  /** A letter or a digit (ASCII). */
  predicate IsAlnumChar(c: char) {
    ('a' <= c <= 'z') || ('A' <= c <= 'Z') || ('0' <= c <= '9')
  }

  /** The name with every `-` and every `_` removed. */
  function StripSeparators(s: string): (r: string)
    ensures |r| <= |s|
    ensures forall c :: c in r <==> c in s && !IsSeparator(c)
  {
    if s == [] then []
    else (if IsSeparator(s[0]) then [] else [s[0]]) + StripSeparators(s[1..])
  }

  /** Python's `str.isalnum`: non-empty and made of letters and digits only. */
  predicate IsAlnum(s: string) {
    |s| > 0 && forall i :: 0 <= i < |s| ==> IsAlnumChar(s[i])
  }

  /** The acceptance test shared by the three name prompts. */
  predicate IsValidName(name: string, prefixLen: nat) {
    IsAlnum(StripSeparators(name)) && prefixLen + |name| <= MaxPathChars
  }

  /**
   * An independent reading of the acceptance test: a name is accepted exactly
   * when it holds at least one letter or digit, holds nothing but letters,
   * digits, `-` and `_`, and its save path fits in 247 characters.
   */
  lemma ValidNameChars(name: string, prefixLen: nat)
    ensures IsValidName(name, prefixLen) <==>
      (exists i :: 0 <= i < |name| && IsAlnumChar(name[i])) &&
      (forall i :: 0 <= i < |name| ==> IsAlnumChar(name[i]) || IsSeparator(name[i])) &&
      prefixLen + |name| <= MaxPathChars
  {
    var r := StripSeparators(name);
    if IsValidName(name, prefixLen) {
      assert r[0] in r;
      var i :| 0 <= i < |name| && name[i] == r[0];
      assert IsAlnumChar(name[i]);
      forall i | 0 <= i < |name| && !IsSeparator(name[i])
        ensures IsAlnumChar(name[i])
      {
        assert name[i] in r;
        var j :| 0 <= j < |r| && r[j] == name[i];
      }
    }
    if (exists i :: 0 <= i < |name| && IsAlnumChar(name[i])) &&
       (forall i :: 0 <= i < |name| ==> IsAlnumChar(name[i]) || IsSeparator(name[i]))
    {
      var i :| 0 <= i < |name| && IsAlnumChar(name[i]);
      assert name[i] in r;
      forall j | 0 <= j < |r| ensures IsAlnumChar(r[j]) {
        assert r[j] in name;
      }
    }
  }

  /** A path of 248 characters is refused whatever the name looks like. */
  lemma OverlongRejected(name: string, prefixLen: nat)
    requires prefixLen + |name| == MaxPathChars + 1
    ensures !IsValidName(name, prefixLen)
  {
  }

  /** A name holding any character other than a letter, a digit, `-` or `_` (a space, a `!`) is refused. */
  lemma ForeignCharRejected(name: string, prefixLen: nat, i: nat)
    requires i < |name| && !IsAlnumChar(name[i]) && !IsSeparator(name[i])
    ensures !IsValidName(name, prefixLen)
  {
    var r := StripSeparators(name);
    assert name[i] in r;
    var j :| 0 <= j < |r| && r[j] == name[i];
  }

  /** One answer to a name prompt: `None` is a cancelled dialog. */
  predicate Accepted(answer: Option<string>, prefixLen: nat) {
    answer.Some? && IsValidName(answer.value, prefixLen)
  }

  /**
   * The position of the answer that ends a name prompt: the first accepted
   * one, or `|answers|` when none is accepted.
   */
  function FirstAccepted(answers: seq<Option<string>>, prefixLen: nat): (k: nat)
    ensures k <= |answers|
    ensures k < |answers| ==> Accepted(answers[k], prefixLen)
    ensures forall j :: 0 <= j < k ==> !Accepted(answers[j], prefixLen)
  {
    if answers == [] then 0
    else if Accepted(answers[0], prefixLen) then 0
    else 1 + FirstAccepted(answers[1..], prefixLen)
  }

  /** The name a prompt settles on, if the user ever gives an acceptable one. */
  function Chosen(answers: seq<Option<string>>, prefixLen: nat): (r: Option<string>)
    ensures r.Some? ==> IsValidName(r.value, prefixLen) && Some(r.value) in answers
    ensures r.None? <==> forall j :: 0 <= j < |answers| ==> !Accepted(answers[j], prefixLen)
  {
    var k := FirstAccepted(answers, prefixLen);
    if k < |answers| then answers[k] else None
  }

  /**
   * The re-prompting loop: ask again while the answer is cancelled or
   * refused. `answers` are the successive replies of the dialog.
   */
  method PromptName(answers: seq<Option<string>>, prefixLen: nat) returns (name: Option<string>)
    ensures name == Chosen(answers, prefixLen)
  {
    var i := 0;
    while i < |answers| && !Accepted(answers[i], prefixLen)
      invariant i <= |answers|
      invariant forall j :: 0 <= j < i ==> !Accepted(answers[j], prefixLen)
    {
      i := i + 1;
    }
    name := if i < |answers| then answers[i] else None;
  }
}
