/**
  The derivation of profile identifiers evaluated on the titles used as
  examples for it: "episode of care" gives "EpisodeOfCare", "Patient-2!"
  gives "Patient2", and a title of punctuation only gives the empty
  identifier (and so a canonical URL that ends in a slash).
*/
module ProfileIdExamples {
  import opened ProfileId

  lemma CareWords() ensures SplitWhitespace("care") == ["care"] { SingleWord("care"); }

  lemma OfCareWords() ensures SplitWhitespace("of care") == ["of", "care"]
  {
    CareWords();
    WordsOfSentence("of", "care");
    assert "of care" == "of" + " " + "care";
  }

  lemma EpisodeOfCareWords()
    ensures SplitWhitespace("episode of care") == ["episode", "of", "care"]
  {
    OfCareWords();
    EpisodeNoWhitespace();
    WordsOfSentence("episode", "of care");
    EpisodeOfCareJoined();
  }

  lemma EpisodeNoWhitespace() ensures NoWhitespace("episode")
  {
    assert NoWhitespace("epi") && NoWhitespace("sode");
    assert "episode" == "epi" + "sode";
  }

  lemma EpisodeOfCareJoined() ensures "episode of care" == "episode" + " " + "of care" { }

  lemma CapitalizeThree(a: string, b: string, c: string)
    ensures CapitalizeAll([a, b, c]) == Capitalize(a) + (Capitalize(b) + (Capitalize(c) + []))
  {
    assert CapitalizeAll([c]) == Capitalize(c) + CapitalizeAll([]) by { assert [c][1..] == []; }
    assert CapitalizeAll([b, c]) == Capitalize(b) + CapitalizeAll([c]) by { assert [b, c][1..] == [c]; }
    assert [a, b, c][1..] == [b, c];
  }

  lemma CapEpisode() ensures Capitalize("episode") == "Episode" { assert "episode"[1..] == "pisode"; }
  lemma CapOf() ensures Capitalize("of") == "Of" { assert "of"[1..] == "f"; }
  lemma CapCare() ensures Capitalize("care") == "Care" { assert "care"[1..] == "are"; }

  lemma EpisodeOfCareCaps()
    ensures CapitalizeAll(["episode", "of", "care"]) == "EpisodeOfCare"
  {
    CapitalizeThree("episode", "of", "care");
    CapEpisode();
    CapOf();
    CapCare();
  }

  lemma StripEpisodeWord() ensures StripDisallowed("episode") == "episode"
  {
    StripDisallowedAllowed("epi");
    StripDisallowedAllowed("sode");
    StripDisallowedAppend("epi", "sode");
    assert "episode" == "epi" + "sode";
  }
  lemma StripOf() ensures StripDisallowed("of") == "of" { StripDisallowedAllowed("of"); }
  lemma StripCare() ensures StripDisallowed("care") == "care" { StripDisallowedAllowed("care"); }
  lemma StripSpace() ensures StripDisallowed(" ") == " " { StripDisallowedAllowed(" "); }

  lemma StripEpisode() ensures StripDisallowed("episode ") == "episode "
  {
    StripEpisodeWord();
    StripSpace();
    StripDisallowedAppend("episode", " ");
    assert "episode " == "episode" + " ";
  }

  lemma StripSpaceCare() ensures StripDisallowed(" care") == " care"
  {
    StripSpace();
    StripCare();
    StripDisallowedAppend(" ", "care");
    assert " care" == " " + "care";
  }

  lemma StripOfCare() ensures StripDisallowed("of care") == "of care"
  {
    StripOf();
    StripSpaceCare();
    StripDisallowedAppend("of", " care");
    assert "of care" == "of" + " care";
  }

  lemma EpisodeOfCareStripped() ensures StripDisallowed("episode of care") == "episode of care"
  {
    StripEpisode();
    StripOfCare();
    StripDisallowedAppend("episode ", "of care");
    EpisodeOfCareSplit();
  }

  lemma EpisodeOfCareSplit() ensures "episode of care" == "episode " + "of care" { }

  lemma EpisodeOfCare()
    ensures GenerateProfileId("episode of care") == "EpisodeOfCare"
  {
    EpisodeOfCareStripped();
    EpisodeOfCareWords();
    EpisodeOfCareCaps();
  }

  lemma Strip2() ensures StripDisallowed("2!") == "2" { StripDisallowedAppend("2", "!"); assert "2!" == "2" + "!"; }
  lemma StripDash2() ensures StripDisallowed("-2!") == "2" { Strip2(); StripDisallowedAppend("-", "2!"); assert "-2!" == "-" + "2!"; }
  lemma StripPatient() ensures StripDisallowed("Patient") == "Patient" { StripDisallowedAllowed("Patient"); }

  lemma Patient2Stripped()
    ensures StripDisallowed("Patient-2!") == "Patient2"
  {
    StripDash2();
    StripPatient();
    StripDisallowedAppend("Patient", "-2!");
    assert "Patient-2!" == "Patient" + "-2!";
  }

  lemma WordsPatient2() ensures SplitWhitespace("Patient2") == ["Patient2"] { SingleWord("Patient2"); }
  lemma CapitalizePatient2() ensures Capitalize("Patient2") == "Patient2" { assert "Patient2"[1..] == "atient2"; }

  lemma CapPatient2() ensures CapitalizeAll(SplitWhitespace("Patient2")) == "Patient2"
  {
    WordsPatient2();
    CapitalizePatient2();
    assert ["Patient2"][1..] == [];
  }

  lemma Patient2()
    ensures GenerateProfileId("Patient-2!") == "Patient2"
  {
    Patient2Stripped();
    CapPatient2();
  }

  /** A title without ASCII letters or digits, such as "!!!", gives the empty identifier. */
  lemma PunctuationOnlyTitle(name: string)
    requires AlnumOnly(name) == ""
    ensures GenerateProfileId(name) == ""
  {
    ProfileIdShape(name);
  }
}
