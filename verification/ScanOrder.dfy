/**
 Which scanner sees a target when, and under whose limits (`DetectionConfig::stages` in
 `src/detection/config.rs` and the loop over it in `guest-agent/src/detection.rs`).
 */
module ScanOrder {
  import opened Basics
  import opened ScanSession

  // ----- whose limits -----

  predicate SameTotals(c: Config, d: Config) {
    && c.totalTimeout == d.totalTimeout && c.maxCaptureBytes == d.maxCaptureBytes
    && c.maxTotalOutputBytes == d.maxTotalOutputBytes
  }

  predicate SameStage(c: Config, d: Config, s: State, scanner: Scanner, i: Input, w: StageRun) {
    && IsDue(c, s, scanner, i) == IsDue(d, s, scanner, i)
    && AfterStage(c, s, scanner, i, w) == AfterStage(d, s, scanner, i, w)
    && StageWorks(c, s, scanner, i, w) == StageWorks(d, s, scanner, i, w)
  }

  lemma WritesTheSame(c: Config, d: Config, s: State, scanner: Scanner, i: Input, w: StageRun)
    requires SameTotals(c, d) && StageOf(c, scanner) == StageOf(d, scanner)
    ensures WrittenBy(c, s, scanner, i, w) == WrittenBy(d, s, scanner, i, w)
  {
    assert Runs(c, s.elapsed, scanner, i.capture, i.length) == Runs(d, s.elapsed, scanner, i.capture, i.length);
    assert Instead(c, s.elapsed, scanner) == Instead(d, s.elapsed, scanner);
  }

  lemma SectionDecides(c: Config, d: Config, s: State, scanner: Scanner, i: Input, w: StageRun)
    requires SameTotals(c, d) && StageOf(c, scanner) == StageOf(d, scanner)
    ensures SameStage(c, d, s, scanner, i, w)
  {
    WritesTheSame(c, d, s, scanner, i, w);
    assert StageWorks(c, s, scanner, i, w) == StageWorks(d, s, scanner, i, w);
  }

  /** What the other three sections of the configuration say makes no difference to a scanner. */
  lemma OwnSectionDecides(c: Config, d: Config, s: State, i: Input, w: StageRun)
    requires SameTotals(c, d)
    ensures c.yara == d.yara ==> SameStage(c, d, s, Yara, i, w)
    ensures c.pe == d.pe ==> SameStage(c, d, s, Pe, i, w)
    ensures c.capa == d.capa ==> SameStage(c, d, s, Capa, i, w)
    ensures c.network == d.network ==> SameStage(c, d, s, Network, i, w)
  {
    if c.yara == d.yara { SectionDecides(c, d, s, Yara, i, w); }
    if c.pe == d.pe { SectionDecides(c, d, s, Pe, i, w); }
    if c.capa == d.capa { SectionDecides(c, d, s, Capa, i, w); }
    if c.network == d.network { SectionDecides(c, d, s, Network, i, w); }
  }

  // ----- in which order -----

  /** The next of the stages, unless one has failed. */
  lemma NextStage(c: Config, s: State, i: Input, world: seq<StageRun>, n: nat, scanner: Scanner)
    requires n < 4 == |world| && scanner == STAGES[n]
    ensures var (t, ok) := AfterStages(c, s, i, world, n);
            var (u, works) := AfterStages(c, s, i, world, n + 1);
            if ok && IsDue(c, t, scanner, i)
            then u == AfterStage(c, t, scanner, i, world[n]) && works == StageWorks(c, t, scanner, i, world[n])
            else u == t && works == ok
  {}

  /** These executions have begun one after the other, all of them or up to one that failed. */
  predicate Begun(s: State, t: State, ok: bool, keys: seq<Key>) {
    && |s.log| <= |t.log| <= |s.log| + |keys| && t.log == s.log + keys[..|t.log| - |s.log|]
    && (ok ==> t.log == s.log + keys && t.executions == s.executions + set key | key in keys)
  }

  /** What other scanners have done does not matter to a scanner. */
  lemma AdmittedStays(c: Config, s: State, t: State, keys: seq<Key>, scanner: Scanner, target: string)
    requires t.executions == s.executions + set key | key in keys
    requires forall k :: 0 <= k < |keys| ==> keys[k].0 != scanner
    ensures Admitted(c, t, scanner, target) <==> Admitted(c, s, scanner, target)
  {
    assert OfScanner(t.executions, scanner) == OfScanner(s.executions, scanner);
  }

  lemma BegunMore(s: State, t: State, u: State, works: bool, keys: seq<Key>, key: Key)
    requires Begun(s, t, true, keys) && u.log == t.log + [key] && u.executions == t.executions + {key}
    ensures Begun(s, u, works, keys + [key])
  {
    var more := keys + [key];
    assert more[..|more|] == more && u.log == s.log + more;
    assert (set k | k in more) == (set k | k in keys) + {key};
  }

  lemma BegunStill(s: State, t: State, keys: seq<Key>, key: Key)
    requires Begun(s, t, false, keys)
    ensures Begun(s, t, false, keys + [key])
  {
    var k := |t.log| - |s.log|;
    assert (keys + [key])[..k] == keys[..k];
  }

  lemma DueStage(c: Config, s: State, i: Input, world: seq<StageRun>, n: nat, scanner: Scanner, keys: seq<Key>)
    requires n < 4 == |world| && scanner == STAGES[n] && Applies(scanner, i.capture) && Admitted(c, s, scanner, i.target)
    requires forall k :: 0 <= k < |keys| ==> keys[k].0 != scanner
    requires Begun(s, AfterStages(c, s, i, world, n).0, AfterStages(c, s, i, world, n).1, keys)
    ensures Begun(s, AfterStages(c, s, i, world, n + 1).0, AfterStages(c, s, i, world, n + 1).1, keys + [(scanner, i.target)])
  {
    var (t, ok) := AfterStages(c, s, i, world, n);
    var (u, works) := AfterStages(c, s, i, world, n + 1);
    NextStage(c, s, i, world, n, scanner);
    if ok {
      AdmittedStays(c, s, t, keys, scanner, i.target);
      BegunMore(s, t, u, works, keys, (scanner, i.target));
    } else {
      BegunStill(s, t, keys, (scanner, i.target));
    }
  }

  lemma OtherStage(c: Config, s: State, i: Input, world: seq<StageRun>, n: nat, scanner: Scanner)
    requires n < 4 == |world| && scanner == STAGES[n] && !Applies(scanner, i.capture)
    ensures AfterStages(c, s, i, world, n + 1) == AfterStages(c, s, i, world, n)
  {
    NextStage(c, s, i, world, n, scanner);
  }

  lemma ThreeStages(c: Config, s: State, i: Input, world: seq<StageRun>, one: seq<Key>, two: seq<Key>, three: seq<Key>)
    requires |world| == 4 && !i.capture
    requires Admitted(c, s, Yara, i.target) && Admitted(c, s, Pe, i.target) && Admitted(c, s, Capa, i.target)
    requires one == [] + [(Yara, i.target)] && two == one + [(Pe, i.target)] && three == two + [(Capa, i.target)]
    ensures Begun(s, AfterStages(c, s, i, world, 3).0, AfterStages(c, s, i, world, 3).1, three)
  {
    DueStage(c, s, i, world, 0, Yara, []);
    DueStage(c, s, i, world, 1, Pe, one);
    DueStage(c, s, i, world, 2, Capa, two);
  }

  /** A new target is seen by YARA, then by the PE scanner, then by capa, unless one of them fails. */
  lemma ScannedInOrder(c: Config, s: State, i: Input, world: seq<StageRun>)
    requires |world| == 4 && !i.capture
    requires Admitted(c, s, Yara, i.target) && Admitted(c, s, Pe, i.target) && Admitted(c, s, Capa, i.target)
    ensures var (t, ok) := AfterScan(c, s, i, true, world);
            Begun(s, t, ok, [(Yara, i.target), (Pe, i.target), (Capa, i.target)])
  {
    var keys := [(Yara, i.target), (Pe, i.target), (Capa, i.target)];
    ThreeStages(c, s, i, world, keys[..1], keys[..2], keys);
    OtherStage(c, s, i, world, 3, Network);
  }

  /** A new capture is seen by the network scanner alone. */
  lemma CaptureIsScanned(c: Config, s: State, i: Input, world: seq<StageRun>)
    requires |world| == 4 && i.capture && Admitted(c, s, Network, i.target)
    ensures AfterScan(c, s, i, true, world).0.log == s.log + [(Network, i.target)]
  {
    OtherStage(c, s, i, world, 0, Yara);
    OtherStage(c, s, i, world, 1, Pe);
    OtherStage(c, s, i, world, 2, Capa);
    NextStage(c, s, i, world, 3, Network);
  }
}
