/**
 The upload gate's file-name test: `file.name.toLowerCase().endsWith('.kml')`,
 with lowercasing restricted to the ASCII letters.
 */
module FileName {

  /** Lowercases one ASCII capital letter; every other character is kept. */
  function LowerChar(c: char): (r: char)
    ensures 'A' <= c <= 'Z' ==> 'a' <= r <= 'z' && r as int - c as int == 32
    ensures !('A' <= c <= 'Z') ==> r == c
  {
    if 'A' <= c <= 'Z' then (c as int + 32) as char else c
  }

  function Lower(s: string): (r: string)
    ensures |r| == |s|
    ensures forall i :: 0 <= i < |s| ==> r[i] == LowerChar(s[i])
  {
    if s == [] then [] else [LowerChar(s[0])] + Lower(s[1..])
  }

  function EndsWith(s: string, suffix: string): bool
  {
    |suffix| <= |s| && s[|s| - |suffix|..] == suffix
  }

  /** The extension test of the upload handler. */
  function IsKmlName(name: string): bool
  {
    EndsWith(Lower(name), ".kml")
  }

  /** Independent reading of the test: the last four characters are a dot
      followed by k, m, l, each in either case. */
  predicate HasKmlExtension(name: string)
  {
    var n := |name|;
    && n >= 4
    && name[n - 4] == '.'
    && name[n - 3] in {'k', 'K'}
    && name[n - 2] in {'m', 'M'}
    && name[n - 1] in {'l', 'L'}
  }

  lemma IsKmlNameCharacterized(name: string)
    ensures IsKmlName(name) <==> HasKmlExtension(name)
  {
    var n := |name|;
    var low := Lower(name);
    EndsWithKml(low);
    if n >= 4 {
      LowerCharMatches(name[n - 4], '.', '.');
      LowerCharMatches(name[n - 3], 'k', 'K');
      LowerCharMatches(name[n - 2], 'm', 'M');
      LowerCharMatches(name[n - 1], 'l', 'L');
    }
  }

  lemma EndsWithKml(s: string)
    ensures EndsWith(s, ".kml") <==>
      |s| >= 4 && s[|s| - 4] == '.' && s[|s| - 3] == 'k' && s[|s| - 2] == 'm' && s[|s| - 1] == 'l'
  {
    if |s| >= 4 {
      var t := s[|s| - 4..];
      assert t[0] == s[|s| - 4] && t[1] == s[|s| - 3] && t[2] == s[|s| - 2] && t[3] == s[|s| - 1];
    }
  }

  /** A character lowercases to `lc` exactly when it is `lc` or its capital
      `uc` (itself, for a character that is not a letter). */
  lemma LowerCharMatches(c: char, lc: char, uc: char)
    requires || (lc == uc && !('a' <= lc <= 'z') && !('A' <= lc <= 'Z'))
             || ('a' <= lc <= 'z' && uc as int == lc as int - 32)
    ensures LowerChar(c) == lc <==> c == lc || c == uc
  {
  }

  /** Any base name with `.kml` in any mix of cases passes the gate. */
  lemma AnyCaseKmlAccepted(base: string, ext: string)
    requires |ext| == 4 && Lower(ext) == ".kml"
    ensures IsKmlName(base + ext)
  {
    var name := base + ext;
    var n := |name|;
    assert Lower(name)[n - 4..] == Lower(ext) by {
      forall i | 0 <= i < 4 ensures Lower(name)[n - 4..][i] == Lower(ext)[i] {
        assert name[n - 4 + i] == ext[i];
      }
    }
  }

  /** A `.txt` file never passes the gate. */
  lemma TxtRejected(base: string)
    ensures !IsKmlName(base + ".txt")
  {
    IsKmlNameCharacterized(base + ".txt");
  }
}
