/**
 * The podio output processor: `Init` settles the output file name and the set of output
 * collections; `Process` retries the collections it is to write, keeps those that come back
 * non-null, remembers (and reports once) the ones that fail, and hands the kept list to the
 * frame writer.
 *
 * The JANA event is the function `lookup` from a collection name to what `GetCollectionBase`
 * does with it; the writer is the list of collection lists it was given, one per frame.
 */
module PodioWriteProcessor {
  import opened Wrappers

  /** What `GetCollectionBase(name)` does: a collection, `nullptr`, or an exception. */
  datatype Retrieval = Found | Null | Threw(what: string)

  /** The error lines of the processor's logger. */
  datatype LogEntry = OmittedNull(collection: string) | OmittedException(collection: string, what: string)

  const DefaultOutputFile: string := "podio_output.root"

  /** The default `output_collections`. */
  const DefaultOutputCollections: seq<string> := ["EventInfo", "McTracks", "McHits"]

  /** The entry `Process` logs for a failed collection. */
  function OmittedEntry(coll: string, r: Retrieval): LogEntry {
    if r.Threw? then OmittedException(coll, r.what) else OmittedNull(coll)
  }

  /** The collections of `colls` whose retrieval gave a collection, in order. */
  function Successful(colls: seq<string>, lookup: string -> Retrieval): seq<string>
    decreases |colls|
  {
    if colls == [] then []
    else
      var last := colls[|colls| - 1];
      Successful(colls[..|colls| - 1], lookup) + (if lookup(last).Found? then [last] else [])
  }

  /** `failed_collections` after the loop over `colls`. */
  function FailedAfter(failed: set<string>, colls: seq<string>, lookup: string -> Retrieval): set<string>
    decreases |colls|
  {
    if colls == [] then failed
    else
      var last := colls[|colls| - 1];
      FailedAfter(failed, colls[..|colls| - 1], lookup) + (if lookup(last).Found? then {} else {last})
  }

  /** The error entries the loop over `colls` logs: a failure is logged only if not already failed. */
  function Logged(failed: set<string>, colls: seq<string>, lookup: string -> Retrieval): seq<LogEntry>
    decreases |colls|
  {
    if colls == [] then []
    else
      var init := colls[..|colls| - 1];
      var last := colls[|colls| - 1];
      Logged(failed, init, lookup)
        + (if !lookup(last).Found? && last !in FailedAfter(failed, init, lookup)
           then [OmittedEntry(last, lookup(last))] else [])
  }

  /** The kept collections are exactly those of the list that were found, in list order. */
  lemma {:induction false} SuccessfulExactly(colls: seq<string>, lookup: string -> Retrieval)
    ensures var r := Successful(colls, lookup);
      && |r| <= |colls|
      && (forall k :: 0 <= k < |r| ==> r[k] in colls && lookup(r[k]).Found?)
      && (forall k :: 0 <= k < |colls| && lookup(colls[k]).Found? ==> colls[k] in r)
    decreases |colls|
  {
    if colls != [] {
      var init := colls[..|colls| - 1];
      SuccessfulExactly(init, lookup);
      assert forall k :: 0 <= k < |init| ==> init[k] == colls[k];
      assert colls == init + [colls[|colls| - 1]];
    }
  }

  /** The failed set only grows, by exactly the collections of the list that were not found. */
  lemma {:induction false} FailedGrows(failed: set<string>, colls: seq<string>, lookup: string -> Retrieval)
    ensures forall c :: c in FailedAfter(failed, colls, lookup) <==>
      c in failed || (c in colls && !lookup(c).Found?)
    decreases |colls|
  {
    if colls != [] {
      var init := colls[..|colls| - 1];
      FailedGrows(failed, init, lookup);
      assert colls == init + [colls[|colls| - 1]];
    }
  }

  /**
   * Each failing collection is logged once, on its first failure: no logged collection had
   * failed before, no collection is logged twice, and every newly failing one is logged.
   */
  lemma {:induction false} LoggedOnFirstFailureOnly(failed: set<string>, colls: seq<string>, lookup: string -> Retrieval)
    ensures var log := Logged(failed, colls, lookup);
      && (forall k :: 0 <= k < |log| ==>
            log[k].collection !in failed && log[k].collection in colls && !lookup(log[k].collection).Found?)
      && (forall j, k :: 0 <= j < k < |log| ==> log[j].collection != log[k].collection)
      && (forall c :: c in colls && !lookup(c).Found? && c !in failed ==>
            exists k :: 0 <= k < |log| && log[k].collection == c)
    decreases |colls|
  {
    if colls != [] {
      var init := colls[..|colls| - 1];
      var last := colls[|colls| - 1];
      LoggedOnFirstFailureOnly(failed, init, lookup);
      FailedGrows(failed, init, lookup);
      assert colls == init + [last];
      var before := Logged(failed, init, lookup);
      var log := Logged(failed, colls, lookup);
      assert forall k :: 0 <= k < |before| ==> log[k] == before[k];
      forall c | c in colls && !lookup(c).Found? && c !in failed
        ensures exists k :: 0 <= k < |log| && log[k].collection == c
      {
        if c in init {
          var k :| 0 <= k < |before| && before[k].collection == c;
          assert log[k].collection == c;
        } else {
          assert c == last;
          assert log[|before|].collection == c;
        }
      }
    }
  }

  /**
   * The function-static `failed_collections` of `Process`: created once, empty, and shared by
   * every processor of the program, so a later processor starts from the earlier ones' failures.
   */
  class FailedCollections {
    var names: set<string>

    constructor ()
      ensures names == {}
    {
      names := {};
    }
  }

  class WriteProcessor {
    var outputFile: string
    var outputCollectionList: seq<string>
    /** `m_output_collections`: the configured collection names. */
    var outputCollections: set<string>
    /** `m_collections_to_write`: the collections handed to the writer. */
    var collectionsToWrite: seq<string>
    var isFirstEvent: bool
    /** The function-static `failed_collections` of `Process`, shared with the other processors. */
    const failed: FailedCollections
    /** The error lines logged so far. */
    var errorLog: seq<LogEntry>
    /** The collection list given to `writeFrame`, one entry per frame written. */
    var writtenFrames: seq<seq<string>>

    /** A new processor; `failed` is the program's one static set, whatever earlier processors put in it. */
    constructor (failed: FailedCollections)
      ensures outputFile == DefaultOutputFile && outputCollectionList == DefaultOutputCollections
      ensures outputCollections == {} && collectionsToWrite == [] && isFirstEvent
      ensures this.failed == failed && failed.names == old(failed.names)
      ensures errorLog == [] && writtenFrames == []
    {
      outputFile := DefaultOutputFile;
      outputCollectionList := DefaultOutputCollections;
      outputCollections := {};
      collectionsToWrite := [];
      isFirstEvent := true;
      this.failed := failed;
      errorLog := [];
      writtenFrames := [];
    }

    /**
     * `Init`: the user's `podio:output_file` (if set) replaces the current name, which is
     * registered as the parameter's default, and the value "1" stands for that default; the
     * user's `podio:output_collections` (if set) replaces the default list, whose names become
     * the set of output collections.
     */
    method Init(userOutputFile: Option<string>, userCollections: Option<seq<string>>)
      modifies this
      ensures outputFile == if userOutputFile.Some? && userOutputFile.value != "1" then userOutputFile.value
                            else old(outputFile)
      ensures outputCollectionList == if userCollections.Some? then userCollections.value else old(outputCollectionList)
      ensures forall c :: c in outputCollections <==> c in outputCollectionList
      ensures collectionsToWrite == old(collectionsToWrite) && isFirstEvent == old(isFirstEvent)
      ensures errorLog == old(errorLog)
      ensures writtenFrames == old(writtenFrames)
    {
      var registeredDefault := outputFile;
      if userOutputFile.Some? {
        outputFile := userOutputFile.value;
      }
      if outputFile == "1" {
        outputFile := registeredDefault;
      }
      if userCollections.Some? {
        outputCollectionList := userCollections.value;
      }
      outputCollections := set c | c in outputCollectionList;
    }

    /**
     * `Process`: keeps the collections to write that were found, adds the failing ones to the
     * failed set (logging each on its first failure), writes one frame with the kept list and
     * clears the first-event flag.
     */
    method Process(lookup: string -> Retrieval)
      modifies this, failed
      ensures collectionsToWrite == Successful(old(collectionsToWrite), lookup)
      ensures failed.names == FailedAfter(old(failed.names), old(collectionsToWrite), lookup)
      ensures errorLog == old(errorLog) + Logged(old(failed.names), old(collectionsToWrite), lookup)
      ensures writtenFrames == old(writtenFrames) + [collectionsToWrite]
      ensures !isFirstEvent
      ensures outputFile == old(outputFile) && outputCollectionList == old(outputCollectionList)
      ensures outputCollections == old(outputCollections)
      ensures old(collectionsToWrite) == [] ==> collectionsToWrite == []
    {
      var toWrite := collectionsToWrite;
      var failed0 := failed.names;
      var log0 := errorLog;
      var successfulCollections: seq<string> := [];
      var i := 0;
      assert toWrite[..0] == [];
      while i < |toWrite|
        invariant 0 <= i <= |toWrite|
        invariant successfulCollections == Successful(toWrite[..i], lookup)
        invariant failed.names == FailedAfter(failed0, toWrite[..i], lookup)
        invariant errorLog == log0 + Logged(failed0, toWrite[..i], lookup)
        invariant collectionsToWrite == toWrite
        invariant outputFile == old(outputFile) && outputCollectionList == old(outputCollectionList)
        invariant outputCollections == old(outputCollections) && writtenFrames == old(writtenFrames)
      {
        var coll := toWrite[i];
        assert toWrite[..i + 1][..i] == toWrite[..i];
        assert toWrite[..i + 1][i] == coll;
        var got := lookup(coll);
        if got.Found? {
          successfulCollections := successfulCollections + [coll];
        } else if coll !in failed.names {
          errorLog := errorLog + [OmittedEntry(coll, got)];
          failed.names := failed.names + {coll};
        }
        i := i + 1;
      }
      assert toWrite[..i] == toWrite;
      collectionsToWrite := successfulCollections;
      writtenFrames := writtenFrames + [collectionsToWrite];
      isFirstEvent := false;
    }
  }
}
