/** Between which deployments the later synchronisation wins on every manifest: exactly. */
module ManifestAbsorption {
  import opened Text
  import opened Decimals
  import opened ManifestLines
  import opened ManifestSync
  import opened ManifestRewrite
  import opened ManifestTheorems

  /** Every known data source has a name that a manifest can give. */
  predicate NamesAreWords(cfg: Config) { forall ds | ds in cfg.nameMap :: ds != "" && AllIn(ds, WordClass) }

  /** On every manifest, synchronising to `a` and then to `b` is synchronising to `b`. */
  ghost predicate LaterWins(a: Config, b: Config) {
    forall text: string :: Sync(b, Sync(a, text).text).text == Sync(b, text).text
  }

  // ---------------------------------------------------------------------------
  // A manifest of two lines
  // ---------------------------------------------------------------------------

  /** A line of a data source's block that names no source itself. */
  predicate IsEntry(line: string) {
    IsLine(line) && line[|line| - 1] == '\n' && NameOf(line) == None
  }

  lemma TwoLines(ds: string, line: string)
    requires ds != "" && AllIn(ds, WordClass) && IsEntry(line)
    ensures SplitLines(NameLine(ds) + line) == [NameLine(ds), line]
  {
    hide IsLine, BodyLen, NameLine, NameOf;
    NameLineNames(ds);
    assert [line][1..] == [] && Join([line]) == line && Lined([line]);
    JoinCons(NameLine(ds), [line]);
    assert [NameLine(ds)] + [line] == [NameLine(ds), line];
    hide Lined, Join;
    SplitJoin([NameLine(ds), line]);
  }

  lemma TwoLinesRewritten(cfg: Config, ds: string, line: string)
    requires ds != "" && AllIn(ds, WordClass) && IsEntry(line)
    ensures Sync(cfg, NameLine(ds) + line).text == NameLine(ds) + RewriteLine(cfg, Some(ds), line)
  {
    hide IsLine, BodyLen, NameLine, NameOf, SplitLines, EditLine, Sync;
    NameLineNames(ds);
    TwoLines(ds, line);
    SyncWrites(cfg, NameLine(ds) + line);
    var line' := RewriteLine(cfg, Some(ds), line);
    var lines := [NameLine(ds), line];
    assert lines[1..] == [line] && [line][1..] == [];
    assert RewriteAll(cfg, Some(ds), [line]) == [line'];
    assert RewriteAll(cfg, None, lines) == [NameLine(ds)] + [line'];
    JoinCons(NameLine(ds), [line']);
    assert [line'][1..] == [] && Join([line']) == line';
  }

  /** What the later deployment must do with a line that the earlier one has rewritten. */
  lemma WinsOnLine(a: Config, b: Config, ds: string, line: string)
    requires BreakFree(a) && LaterWins(a, b)
    requires ds != "" && AllIn(ds, WordClass) && IsEntry(line)
    ensures RewriteLine(b, Some(ds), RewriteLine(a, Some(ds), line)) == RewriteLine(b, Some(ds), line)
  {
    hide IsLine, BodyLen, NameLine, NameOf, RewriteLine, BreakFree, LaterWins;
    var line' := RewriteLine(a, Some(ds), line);
    LineWritten(a, Some(ds), line);
    TwoLinesRewritten(a, ds, line);
    TwoLinesRewritten(b, ds, line);
    TwoLinesRewritten(b, ds, line');
    WinsOnText(a, b, NameLine(ds) + line);
    var name := NameLine(ds);
    assert (name + RewriteLine(b, Some(ds), line'))[|name|..] == RewriteLine(b, Some(ds), line');
    assert (name + RewriteLine(b, Some(ds), line))[|name|..] == RewriteLine(b, Some(ds), line);
  }

  lemma WinsOnText(a: Config, b: Config, text: string)
    requires LaterWins(a, b)
    ensures Sync(b, Sync(a, text).text).text == Sync(b, text).text
  {
  }

  // ---------------------------------------------------------------------------
  // Written lines tell their values apart
  // ---------------------------------------------------------------------------

  lemma PrintIntDiffers(m: int, n: int)
    ensures PrintInt(m) == PrintInt(n) ==> m == n
  {
    PrintNatDigits(if m < 0 then -m else m);
    PrintNatDigits(if n < 0 then -n else n);
    assert IsDigit(PrintNat(if m < 0 then -m else m)[0]) && IsDigit(PrintNat(if n < 0 then -n else n)[0]);
    if m < 0 && n < 0 && PrintInt(m) == PrintInt(n) {
      assert PrintInt(m)[1..] == PrintNat(-m) && PrintInt(n)[1..] == PrintNat(-n);
    }
  }

  lemma SameMiddle(head: string, m: string, n: string, tail: string)
    ensures head + (m + tail) == head + (n + tail) ==> m == n
  {
    assert (head + (m + tail))[|head|..] == m + tail && (head + (n + tail))[|head|..] == n + tail;
    assert (m + tail)[..|m|] == m && (n + tail)[..|n|] == n;
  }

  lemma AddressLinesDiffer(indent: string, m: string, n: string)
    ensures AddressLine(indent, m) == AddressLine(indent, n) ==> m == n
  {
    var head := indent + ("address:" + " \"");
    assert AddressLine(indent, m) == head + (m + "\"\n") && AddressLine(indent, n) == head + (n + "\"\n");
    SameMiddle(head, m, n, "\"\n");
  }

  lemma StartBlockLinesDiffer(indent: string, m: int, n: int)
    ensures StartBlockLine(indent, m) == StartBlockLine(indent, n) ==> m == n
  {
    hide PrintInt;
    var head := indent + ("startBlock:" + " ");
    assert StartBlockLine(indent, m) == head + (PrintInt(m) + "\n");
    assert StartBlockLine(indent, n) == head + (PrintInt(n) + "\n");
    SameMiddle(head, PrintInt(m), PrintInt(n), "\n");
    PrintIntDiffers(m, n);
  }

  lemma NetworkLinesDiffer(indent: string, m: string, n: string)
    ensures NetworkLine(indent, m) == NetworkLine(indent, n) ==> m == n
  {
    var head := indent + ("network:" + " ");
    assert NetworkLine(indent, m) == head + (m + "\n") && NetworkLine(indent, n) == head + (n + "\n");
    SameMiddle(head, m, n, "\n");
  }

  // ---------------------------------------------------------------------------
  // What is needed of each source
  // ---------------------------------------------------------------------------

  predicate IsIndent(s: string) { AllSpace(s) && NoBreaks(s) }

  lemma FourBlanks()
    ensures IsIndent("    ")
  {
  }

  lemma SourceIsDeployed(a: Config, b: Config, ds: string)
    requires BreakFree(a) && a.nameMap == b.nameMap && NamesAreWords(a) && LaterWins(a, b) && HasDeployment(a, ds)
    ensures HasDeployment(b, ds)
  {
    hide NameOf, KindOf, IsLine, PrintInt, StartBlockLine, BreakFree, LaterWins, AllIn;
    var n := if Deployment(a, ds).startBlock == 0 then 1 else 0;
    FourBlanks();
    StartBlockReadBack("    ", n);
    EndsInNewline("    ", n);
    StartBlockLinesDiffer("    ", n, Deployment(a, ds).startBlock);
    WinsOnLine(a, b, ds, StartBlockLine("    ", n));
  }

  lemma EndsInNewline(indent: string, n: int)
    ensures var line := StartBlockLine(indent, n); line != "" && line[|line| - 1] == '\n'
  {
  }

  lemma AddressIsAbsorbed(a: Config, b: Config, ds: string)
    requires BreakFree(a) && a.nameMap == b.nameMap && NamesAreWords(a) && LaterWins(a, b)
    requires HasDeployment(a, ds) && HasDeployment(b, ds)
    ensures IsQuotable(Deployment(a, ds).address)
         || Norm(Deployment(a, ds).address) == Norm(Deployment(b, ds).address)
  {
    hide NameOf, KindOf, IsLine, Norm, AddressLine, LaterWins, AllIn, NoBreaks, AllSpace, IsNetworkName;
    var u, v := Norm(Deployment(a, ds).address), Norm(Deployment(b, ds).address);
    FourBlanks();
    PlainAddress();
    AddressReadBack("    ", "x");
    AddressReadBack("    ", u);
    AddressLinesDiffer("    ", u, v);
    WinsOnLine(a, b, ds, AddressLine("    ", "x"));
  }

  lemma PlainAddress()
    ensures NoBreaks("x") && '"' !in "x"
    ensures var line := AddressLine("    ", "x"); line != "" && line[|line| - 1] == '\n'
  {
  }

  lemma StartBlockIsAbsorbed(a: Config, b: Config, ds: string)
    requires BreakFree(a) && a.nameMap == b.nameMap && NamesAreWords(a) && LaterWins(a, b)
    requires HasDeployment(a, ds) && HasDeployment(b, ds)
    ensures Deployment(a, ds).startBlock >= 0 || Deployment(a, ds).startBlock == Deployment(b, ds).startBlock
  {
    hide NameOf, KindOf, IsLine, PrintInt, StartBlockLine, BreakFree, LaterWins, AllIn;
    var m, n := Deployment(a, ds).startBlock, Deployment(b, ds).startBlock;
    FourBlanks();
    StartBlockReadBack("    ", 0);
    StartBlockReadBack("    ", m);
    EndsInNewline("    ", 0);
    StartBlockLinesDiffer("    ", m, n);
    WinsOnLine(a, b, ds, StartBlockLine("    ", 0));
  }

  lemma NetworkIsAbsorbed(a: Config, b: Config, ds: string)
    requires BreakFree(a) && a.nameMap == b.nameMap && NamesAreWords(a) && LaterWins(a, b)
    requires HasDeployment(a, ds) && HasDeployment(b, ds)
    ensures a.network.Some? ==> b.network.Some?
  {
    hide NameOf, KindOf, IsLine, NetworkLine, LaterWins, AllIn, NoBreaks, AllSpace, IsNetworkName, Norm;
    if a.network.Some? && b.network.None? {
      var other := if a.network.value == "x" then "y" else "x";
      FourBlanks();
      PlainNetworks();
      NetworkReadBack("    ", other);
      NetworkReadBack("    ", a.network.value);
      NetworkLinesDiffer("    ", other, a.network.value);
      WinsOnLine(a, b, ds, NetworkLine("    ", other));
    }
  }

  lemma PlainNetworks()
    ensures IsNetworkName("x") && IsNetworkName("y")
    ensures forall s: string :: var line := NetworkLine("    ", s); line != "" && line[|line| - 1] == '\n'
  {
  }

  /**
   Between two deployments over one table of data sources, the later synchronisation wins on every
   manifest exactly when every source that the earlier one deploys is deployed by the later one, with
   values that it can read back or that are its own, and with a network if the earlier one has one.
   */
  lemma AbsorptionExactly(a: Config, b: Config)
    requires BreakFree(a) && a.nameMap == b.nameMap && NamesAreWords(a)
    ensures LaterWins(a, b) <==> Absorbs(b, a)
  {
    hide Sync, BreakFree, HasDeployment, IsQuotable, Norm;
    if Absorbs(b, a) {
      forall text: string ensures Sync(b, Sync(a, text).text).text == Sync(b, text).text {
        AbsorbedText(a, b, text);
      }
    }
    if LaterWins(a, b) {
      forall ds | HasDeployment(a, ds) ensures AbsorbedAt(a, b, ds) {
        SourceIsDeployed(a, b, ds);
        AddressIsAbsorbed(a, b, ds);
        StartBlockIsAbsorbed(a, b, ds);
        NetworkIsAbsorbed(a, b, ds);
      }
    }
  }
}
