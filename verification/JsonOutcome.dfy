/**
 What the JSON pass does with a document: exactly when it returns a text, and which one.
 */
module JsonOutcome {
  import opened Common
  import opened JsonMinifier
  import opened JsonRestore

  predicate All(s: string, p: CharTest) {
    forall i :: 0 <= i < |s| ==> p(s[i])
  }

  // ------------------------------------------------------------ trimming

  lemma {:induction false} LeadingGoes(a: string, s: string, white: CharTest)
    requires All(a, white) && (s == "" || !white(s[0]))
    ensures WithoutLeading(a + s, white) == s
  {
    if a == "" {
      assert a + s == s;
    } else {
      assert (a + s)[0] == a[0] && (a + s)[1..] == a[1..] + s;
      LeadingGoes(a[1..], s, white);
    }
  }

  lemma {:induction false} TrailingGoes(s: string, b: string, white: CharTest)
    requires All(b, white) && (s == "" || !white(s[|s| - 1]))
    ensures WithoutTrailing(s + b, white) == s
  {
    if b == "" {
      assert s + b == s;
    } else {
      var n := |b| - 1;
      assert (s + b)[|s + b| - 1] == b[n] && (s + b)[..|s + b| - 1] == s + b[..n];
      TrailingGoes(s, b[..n], white);
    }
  }

  /** Trimming removes the white characters at both ends and nothing else. */
  lemma TrimExactly(a: string, s: string, b: string, white: CharTest)
    requires All(a, white) && All(b, white) && (s == "" || (!white(s[0]) && !white(s[|s| - 1])))
    ensures Trim(a + (s + b), white) == s
  {
    if s == "" {
      assert a + (s + b) == (a + b) + "" && All(a + b, white);
      LeadingGoes(a + b, "", white);
    } else {
      LeadingGoes(a, s + b, white);
      TrailingGoes(s, b, white);
    }
  }

  // ------------------------------------------------------------ documents

  /** There is a line feed or there are two blanks in a row. */
  ghost predicate IsLoose(s: string) {
    (exists i :: 0 <= i < |s| && s[i] == '\n') || exists i, j :: 0 <= i < j < |s| && j == i + 1 && s[i] == s[j] == ' '
  }

  lemma GroupIsDelimited(j: Json)
    requires WellFormed(j)
    ensures var s := Text(j);
            && s != "" && (j.Group? <==> s[0] == '{' || s[0] == '[')
            && (j.Group? ==> (s[0] == '{' && s[|s| - 1] == '}') || (s[0] == '[' && s[|s| - 1] == ']'))
  {
    FirstChar(j, "");
    assert Text(j) + "" == Text(j);
    if j.Group? {
      var x := ItemsText(j.items);
      assert Text(j) == [Open(j.isObject)] + (x + [Close(j.isObject)]);
    }
  }

  lemma LooseExactly(s: string)
    ensures ('\n' in s || exists i :: 0 < i < |s| && s[i - 1] == ' ' && s[i] == ' ') <==> IsLoose(s)
  {
    if i :| 0 < i < |s| && s[i - 1] == ' ' && s[i] == ' ' {
      assert s[i - 1] == s[i] == ' ' && i == (i - 1) + 1;
    }
    if i, j :| 0 <= i < j < |s| && j == i + 1 && s[i] == s[j] == ' ' {
      assert s[j - 1] == ' ' && s[j] == ' ';
    }
  }

  lemma CandidateExactly(j: Json)
    requires WellFormed(j)
    ensures IsJsonCandidate(Text(j)) <==> j.Group? && IsLoose(Text(j))
  {
    GroupIsDelimited(j);
    LooseExactly(Text(j));
  }

  /**
   Main result: a document between white characters gives a result exactly if it is an object or an
   array with a line feed or two blanks in a row, its compact form is shorter than the text, and the
   validator accepts that form, which then is the result.
   */
  lemma DocumentOutcome(text: string, a: string, j: Json, b: string, white: CharTest, isJson: TextTest)
    requires WellFormed(j) && text == a + (Text(j) + b) && All(a, white) && All(b, white)
    requires Text(j) != "" && !white(Text(j)[0]) && !white(Text(j)[|Text(j)| - 1])
    ensures var m := Text(Bare(j));
            Compacted(text, white, isJson)
            == if j.Group? && IsLoose(Text(j)) && |m| < |text| && isJson(m) then Some(m) else None
  {
    TrimExactly(a, Text(j), b, white);
    CandidateExactly(j);
    TextPasses(j);
  }

  // ------------------------------------------------------------ what the scan drops

  /** Outside literals the scan drops blanks, tabs, line feeds, form feeds and carriage returns. */
  lemma {:induction false} DroppedExactly(s: string, c: char)
    requires '"' !in s
    ensures c in Minify(s) <==> c in s && c !in " \t\n\U{000C}\r"
  {
    if s != "" {
      assert s[0] in s && forall i :: 0 <= i < |s[1..]| ==> s[1..][i] in s;
      DroppedExactly(s[1..], c);
      assert s == [s[0]] + s[1..];
    }
  }
}
