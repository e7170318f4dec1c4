/**
 * The extraction pass that patch_config.cjs and patch_config.js share: every `.txt` file
 * of the extracted-text directory is split into criterion blocks, and each block that
 * opens with a code records what it says about that criterion in a map keyed by the
 * code, a later block overwriting an earlier one.
 */
module Extraction {
  import opened Wrappers
  import opened Strings
  import opened BlockText

  /** A directory entry: its file name and its text. */
  datatype TextFile = TextFile(name: string, content: string)

  predicate IsTextFile(f: TextFile) {
    EndsWith(f.name, ".txt")
  }

  /** The blocks the pass visits, file after file in listing order, skipping other files. */
  function FilesBlocks(files: seq<TextFile>): (blocks: seq<string>)
    ensures files == [] ==> blocks == []
  {
    if files == [] then []
    else
      var last := files[|files| - 1];
      FilesBlocks(files[..|files| - 1]) + (if IsTextFile(last) then SplitBlocks(last.content) else [])
  }

  /** One more file: its blocks follow those of the files before it, when it is a `.txt` file. */
  lemma FilesBlocksSnoc(files: seq<TextFile>, i: nat)
    requires i < |files|
    ensures FilesBlocks(files[..i + 1])
            == FilesBlocks(files[..i]) + (if IsTextFile(files[i]) then SplitBlocks(files[i].content) else [])
  {
    assert files[..i + 1][..i] == files[..i];
  }

  /** Whether `block` records a value for `id` in the map `get` feeds. */
  predicate Records<V>(get: string -> Option<V>, block: string, id: string) {
    BlockCode(block) == Some(id) && get(block).Some?
  }

  /**
   * The map after the blocks: each block with a code for which `get` finds a value sets
   * the code's entry to that value.
   */
  function MapFold<V>(get: string -> Option<V>, m: map<string, V>, blocks: seq<string>): map<string, V>
  {
    if blocks == [] then m
    else Put(get, MapFold(get, m, blocks[..|blocks| - 1]), blocks[|blocks| - 1])
  }

  /** What one block does to the map: a block with a code for which `get` finds a value sets that entry. */
  function Put<V>(get: string -> Option<V>, m: map<string, V>, b: string): (r: map<string, V>)
    ensures BlockCode(b).Some? && Records(get, b, BlockCode(b).value) ==> r == m[BlockCode(b).value := get(b).value]
    ensures !(BlockCode(b).Some? && Records(get, b, BlockCode(b).value)) ==> r == m
  {
    match BlockCode(b)
    case None => m
    case Some(id) =>
      match get(b)
      case None => m
      case Some(v) => m[id := v]
  }

  /** One more block: the entry of its code is set when the block records a value. */
  lemma FoldSnoc<V>(get: string -> Option<V>, m: map<string, V>, done: seq<string>, blocks: seq<string>, j: nat)
    requires j < |blocks|
    ensures MapFold(get, m, done + blocks[..j + 1]) == Put(get, MapFold(get, m, done + blocks[..j]), blocks[j])
  {
    assert (done + blocks[..j + 1])[..|done| + j] == done + blocks[..j];
    assert (done + blocks[..j + 1])[|done| + j] == blocks[j];
  }

  /** The last block that records `id` decides its entry: later blocks overwrite earlier ones. */
  lemma {:induction false} LastWins<V>(get: string -> Option<V>, m: map<string, V>, blocks: seq<string>, k: nat, id: string)
    requires k < |blocks| && Records(get, blocks[k], id)
    requires forall j :: k < j < |blocks| ==> !Records(get, blocks[j], id)
    ensures id in MapFold(get, m, blocks) && MapFold(get, m, blocks)[id] == get(blocks[k]).value
  {
    var init := blocks[..|blocks| - 1];
    if k < |blocks| - 1 {
      assert forall j :: k < j < |init| ==> init[j] == blocks[j];
      LastWins(get, m, init, k, id);
    }
  }

  /** An id no block records keeps the entry it had before the pass, or stays absent. */
  lemma {:induction false} NeverRecorded<V>(get: string -> Option<V>, m: map<string, V>, blocks: seq<string>, id: string)
    requires forall j :: 0 <= j < |blocks| ==> !Records(get, blocks[j], id)
    ensures (id in MapFold(get, m, blocks)) == (id in m)
    ensures id in m ==> MapFold(get, m, blocks)[id] == m[id]
  {
    if blocks != [] {
      var init := blocks[..|blocks| - 1];
      assert forall j :: 0 <= j < |init| ==> init[j] == blocks[j];
      NeverRecorded(get, m, init, id);
    }
  }

  /** Two maps filled from the same blocks by finders that succeed together have the same keys. */
  lemma {:induction false} SameKeys<V, W>(get: string -> Option<V>, get2: string -> Option<W>,
                                          m: map<string, V>, m2: map<string, W>, blocks: seq<string>)
    requires m.Keys == m2.Keys
    requires forall j :: 0 <= j < |blocks| ==> get(blocks[j]).Some? == get2(blocks[j]).Some?
    ensures MapFold(get, m, blocks).Keys == MapFold(get2, m2, blocks).Keys
  {
    if blocks != [] {
      var init := blocks[..|blocks| - 1];
      assert forall j :: 0 <= j < |init| ==> init[j] == blocks[j];
      SameKeys(get, get2, m, m2, init);
      assert get(blocks[|blocks| - 1]).Some? == get2(blocks[|blocks| - 1]).Some?;
    }
  }

  /** The value of an entry is a value `get` found in some block. */
  lemma {:induction false} EntryFound<V>(get: string -> Option<V>, blocks: seq<string>, id: string)
    requires id in MapFold(get, map[], blocks)
    ensures exists j :: 0 <= j < |blocks| && Records(get, blocks[j], id) && get(blocks[j]).value == MapFold(get, map[], blocks)[id]
  {
    var init := blocks[..|blocks| - 1];
    var b := blocks[|blocks| - 1];
    if Records(get, b, id) {
      assert Records(get, blocks[|blocks| - 1], id);
    } else {
      EntryFound(get, init, id);
      var j :| 0 <= j < |init| && Records(get, init[j], id) && get(init[j]).value == MapFold(get, map[], init)[id];
      assert blocks[j] == init[j];
    }
  }
}
