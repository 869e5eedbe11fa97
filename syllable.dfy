/** The Korean-syllable detector of the trainer: the double-vowel check, the
    onset guard and vowel scan of `detect_korean`, and the section loop of
    `syllable_detection`. Strings are typed on a QWERTY keyboard in the
    Korean two-set layout, so `tkfkd` spells a Hangul word. */
module SyllableDetection {
  import opened Outcomes

  /** A section of a password being parsed: its text and its tag. */
  datatype Section = Section(text: string, tag: string)

  datatype Option<+T> = None | Some(value: T)

  /** What `detect_korean` would return on its success path: the new
      sections and the Korean string found. */
  datatype KoreanParse = KoreanParse(parsing: seq<Section>, found: string)

  /** Lenis consonant keys. */
  const LENIS: seq<char> := ['q', 'w', 'e', 'r', 't', 'a', 's', 'd', 'f', 'g', 'z', 'x', 'c', 'v']
  /** Vowel keys. */
  const VOWEL: seq<char> := ['y', 'u', 'i', 'o', 'p', 'h', 'j', 'k', 'l', 'b', 'n', 'm', 'O', 'P']
  /** The two-key double vowels. */
  const D_VOWEL: seq<string> := ["hk", "ho", "hl", "nj", "np", "nl", "ml"]
  /** Fortes that may only open a syllable. */
  const CONSTR_ONSET_ONLY: seq<char> := ['Q', 'W', 'E']

  /** `check_d_vowel(s)`: the first key decides which second keys complete a
      double vowel. Python's `and` short-circuits, so `s[1]` is read only after
      `s[0]` is h, n or m: a one-key string raises IndexError exactly then,
      and the empty string always does. */
  function CheckDVowel(s: string): (r: Result<bool>)
    ensures r.Err? <==> |s| == 0 || (|s| == 1 && s[0] in "hnm")
    ensures r.Err? ==> r.error == IndexError
    ensures |s| == 1 && s[0] !in "hnm" ==> r == Ok(false)
  {
    if |s| == 0 then Err(IndexError)
    else if s[0] == 'h' then
      if |s| < 2 then Err(IndexError) else Ok(s[1] in ['k', 'o', 'l'])
    else if s[0] == 'n' then
      if |s| < 2 then Err(IndexError) else Ok(s[1] in ['j', 'p', 'l'])
    else if s[0] == 'm' then
      if |s| < 2 then Err(IndexError) else Ok(s[1] == 'l')
    else Ok(false)
  }

  /** On a string of two or more keys, the check accepts exactly the
      double vowels listed in `D_VOWEL`, looking at the first two keys only. */
  lemma CheckDVowelIsDoubleVowel(s: string)
    requires |s| >= 2
    ensures CheckDVowel(s) == Ok(s[..2] in D_VOWEL)
  {
    var p := s[..2];
    assert p == [s[0], s[1]];
    if p in D_VOWEL {
      var k :| 0 <= k < |D_VOWEL| && D_VOWEL[k] == p;
      assert p[0] == D_VOWEL[k][0] && p[1] == D_VOWEL[k][1];
    }
  }

  /** The onset guard of `detect_korean` as Python parses it:
      `(c not in LENIS) or CONSTR_ONSET_ONLY`, where a non-empty list is
      truthy. It rejects every key. */
  predicate OnsetRejected(c: char)
  {
    c !in LENIS || |CONSTR_ONSET_ONLY| > 0
  }

  /** The guard is always true: `detect_korean` returns at line 81 for every
      non-empty text. */
  lemma OnsetGuardAlwaysHolds(c: char)
    ensures OnsetRejected(c)
  {
  }

  /** `detect_korean(section)`: `section[0][0]` raises IndexError on an empty
      text; otherwise the onset guard returns None before any further work. */
  function DetectKorean(section: Section): (r: Result<Option<KoreanParse>>)
    ensures r.Ok? <==> |section.text| > 0
    ensures r.Err? ==> r.error == IndexError
    ensures r.Ok? ==> r.value == None
  {
    var workingString := section.text;
    if |workingString| == 0 then Err(IndexError)
    else if OnsetRejected(workingString[0]) then Ok(None)
    else assert false; Ok(None)
  }

  /** The vowel scan of `detect_korean`: every position of the string holding
      a vowel key, in increasing order. */
  method VowelPositions(workingString: string) returns (vowelPos: seq<nat>)
    ensures forall i, j :: 0 <= i < j < |vowelPos| ==> vowelPos[i] < vowelPos[j]
    ensures forall i :: 0 <= i < |vowelPos| ==> vowelPos[i] < |workingString| && workingString[vowelPos[i]] in VOWEL
    ensures forall p :: 0 <= p < |workingString| && workingString[p] in VOWEL ==> p in vowelPos
  {
    vowelPos := [];
    for pos := 0 to |workingString|
      invariant forall i, j :: 0 <= i < j < |vowelPos| ==> vowelPos[i] < vowelPos[j]
      invariant forall i :: 0 <= i < |vowelPos| ==> vowelPos[i] < pos && workingString[vowelPos[i]] in VOWEL
      invariant forall p :: 0 <= p < pos && workingString[p] in VOWEL ==> p in vowelPos
    {
      if workingString[pos] in VOWEL {
        vowelPos := vowelPos + [pos];
      }
    }
  }

  /** `'A' in tag`. */
  predicate HasAlpha(tag: string)
  {
    'A' in tag
  }

  /** `syllable_detection(section_list)`: walk the sections and hand each
      section whose tag contains 'A' to `detect_korean`. Unpacking the None it
      returns raises TypeError, so the first such section ends the call:
      IndexError when its text is empty, TypeError otherwise. With no such
      section the Korean list stays empty. The list is returned as
      `sectionsAfter`: the in-place edits of the loop are never reached. */
  method DetectSyllables(sectionList: seq<Section>) returns (r: Result<seq<string>>, sectionsAfter: seq<Section>)
    ensures sectionsAfter == sectionList
    ensures r == Ok([]) <==> forall i :: 0 <= i < |sectionList| ==> !HasAlpha(sectionList[i].tag)
    ensures forall i :: 0 <= i < |sectionList| && HasAlpha(sectionList[i].tag)
                        && (forall j :: 0 <= j < i ==> !HasAlpha(sectionList[j].tag))
                        ==> r == Err(if |sectionList[i].text| == 0 then IndexError else TypeError)
  {
    var koreanList: seq<string> := [];
    sectionsAfter := sectionList;
    var index := 0;
    while index < |sectionsAfter|
      invariant 0 <= index <= |sectionsAfter|
      invariant sectionsAfter == sectionList
      invariant forall j :: 0 <= j < index ==> !HasAlpha(sectionList[j].tag)
      invariant koreanList == []
    {
      if HasAlpha(sectionsAfter[index].tag) {
        var d := DetectKorean(sectionsAfter[index]);
        if d.Err? {
          return Err(d.error), sectionsAfter;
        }
        // `parsing, korean_string = None`
        assert d.value.None?;
        return Err(TypeError), sectionsAfter;
      }
      index := index + 1;
    }
    r := Ok(koreanList);
  }
}
