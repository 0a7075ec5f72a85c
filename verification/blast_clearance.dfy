/**
 The search-clause step of the blast clearance script. The script empties
 `searchfile.txt`, appends the clause to it term by term, and reads the file
 back as the clause it hands to the feature-layer query.
 */
module BlastClearance {
  import opened TextFiles
  import opened SearchClause

  /** Builds the search clause for `blockInput` the way the script does.
      `searchFile` is the scratch file as a previous run left it; the result
      does not depend on it, because the file is emptied before anything is
      appended. Writes by another process during the run are not modelled. */
  method BuildSearchClause(searchFile: TextFile, blockInput: seq<string>) returns (searchClause: string)
    ensures searchClause == Clause(blockInput)
    ensures |blockInput| == 0 ==> searchClause == ""
    ensures |blockInput| == 1 ==> searchClause == FieldPrefix + blockInput[0]
  {
    // Clear the search file.
    var file := OpenForWrite(searchFile);
    file := Write(file, "");
    assert file.contents == "";

    // Append the terms.
    if |blockInput| > 1 {
      var counter := 1;
      file := Write(file, Term(blockInput[0]) + Separator);
      SeparatedTermsSnoc(blockInput, 0);
      assert SeparatedTerms(blockInput[..0]) == "";
      // Each pass writes one middle term, so after it the file holds the
      // first `counter` terms, each followed by " OR ".
      while counter < |blockInput| - 1
        invariant 1 <= counter <= |blockInput| - 1
        invariant file.contents == SeparatedTerms(blockInput[..counter])
      {
        SeparatedTermsSnoc(blockInput, counter);
        file := Write(file, Term(blockInput[counter]) + Separator);
        counter := counter + 1;
      }
      file := Write(file, Term(blockInput[|blockInput| - 1]));
      ClauseAsWritten(blockInput);
    } else if |blockInput| == 1 {
      file := Write(file, Term(blockInput[0]));
      ClauseOfOne(blockInput[0]);
    }

    // Read the clause back.
    searchClause := Read(file);
  }
}
