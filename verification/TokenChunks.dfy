/**
Cutting a conversation into chunks of at most so many tokens, for summaries.
*/
module TokenChunks {
  import opened Compaction

  /** Chunks of at most `maxTokens` each, an oversized message making a chunk of its own, and none of them with room
      for the message after it. */
  ghost predicate IsChunking(cost: CostModel, maxTokens: int, chunks: seq<seq<Message>>) {
    && (forall j :: 0 <= j < |chunks| ==> chunks[j] != [] && (|chunks[j]| == 1 || Tokens(cost, chunks[j]) <= maxTokens))
    && (forall j :: 0 <= j < |chunks| - 1 ==> Tokens(cost, chunks[j]) + cost(chunks[j + 1][0]) > maxTokens)
  }

  lemma ChunkingOneMore(cost: CostModel, maxTokens: int, chunks: seq<seq<Message>>, chunk: seq<Message>)
    requires IsChunking(cost, maxTokens, chunks) && chunk != [] && (|chunk| == 1 || Tokens(cost, chunk) <= maxTokens)
    requires chunks != [] ==> Tokens(cost, chunks[|chunks| - 1]) + cost(chunk[0]) > maxTokens
    ensures IsChunking(cost, maxTokens, chunks + [chunk])
  {
  }

  /** Close the current chunk if `next` does not fit in it. */
  function MakeRoom(cost: CostModel, next: Message, maxTokens: int, chunks: seq<seq<Message>>, current: seq<Message>)
    : (seq<seq<Message>>, seq<Message>)
  {
    if current != [] && Tokens(cost, current) + cost(next) > maxTokens then (chunks + [current], [])
    else (chunks, current)
  }

  /** What the chunking loop makes of the messages still to come. */
  function ChunkFrom(cost: CostModel, rest: seq<Message>, maxTokens: int, chunks: seq<seq<Message>>,
                     current: seq<Message>): seq<seq<Message>>
  {
    if rest == [] then (if current == [] then chunks else chunks + [current])
    else
      var (closed, open) := MakeRoom(cost, rest[0], maxTokens, chunks, current);
      var grown := open + [rest[0]];
      if cost(rest[0]) > maxTokens then ChunkFrom(cost, rest[1..], maxTokens, closed + [grown], [])
      else ChunkFrom(cost, rest[1..], maxTokens, closed, grown)
  }

  method ChunkByMaxTokens(cost: CostModel, ms: seq<Message>, maxTokens: int) returns (chunks: seq<seq<Message>>)
    ensures chunks == ChunkFrom(cost, ms, maxTokens, [], [])
  {
    chunks := [];
    var current: seq<Message> := [];
    var currentTokens := 0;
    var i := 0;
    assert ms[0..] == ms;
    while i < |ms|
      invariant 0 <= i <= |ms| && currentTokens == Tokens(cost, current)
      invariant ChunkFrom(cost, ms[i..], maxTokens, chunks, current) == ChunkFrom(cost, ms, maxTokens, [], [])
    {
      var message := ms[i];
      var price := cost(message);
      assert ms[i..][1..] == ms[i + 1..];
      if current != [] && currentTokens + price > maxTokens {
        chunks := chunks + [current];
        current := [];
        currentTokens := 0;
      }
      TokensOfOneMore(cost, current, message);
      current := current + [message];
      currentTokens := currentTokens + price;
      if price > maxTokens {
        chunks := chunks + [current];
        current := [];
        currentTokens := 0;
      }
      i := i + 1;
    }
    if current != [] {
      chunks := chunks + [current];
    }
  }

  ghost predicate ChunkingSoFar(cost: CostModel, maxTokens: int, chunks: seq<seq<Message>>, current: seq<Message>) {
    && IsChunking(cost, maxTokens, chunks)
    && (current != [] ==> Tokens(cost, current) <= maxTokens)
    && (chunks != [] ==>
          Tokens(cost, chunks[|chunks| - 1]) + (if current == [] then 0 else cost(current[0])) > maxTokens)
  }

  lemma MakeRoomKeeps(cost: CostModel, next: Message, maxTokens: int, chunks: seq<seq<Message>>, current: seq<Message>)
    requires ChunkingSoFar(cost, maxTokens, chunks, current)
    ensures var (closed, open) := MakeRoom(cost, next, maxTokens, chunks, current);
      && Flatten(closed) + open == Flatten(chunks) + current
      && IsChunking(cost, maxTokens, closed)
      && (open != [] ==> Tokens(cost, open) + cost(next) <= maxTokens)
      && (closed != [] ==>
            Tokens(cost, closed[|closed| - 1]) + cost((open + [next])[0]) > maxTokens)
  {
    if current != [] {
      FlattenOneMore(chunks, current);
      ChunkingOneMore(cost, maxTokens, chunks, current);
    }
  }

  lemma {:induction false} ChunkFromIsChunking(cost: CostModel, rest: seq<Message>, maxTokens: int,
                                               chunks: seq<seq<Message>>, current: seq<Message>)
    requires ChunkingSoFar(cost, maxTokens, chunks, current)
    ensures var all := ChunkFrom(cost, rest, maxTokens, chunks, current);
      Flatten(all) == Flatten(chunks) + current + rest && IsChunking(cost, maxTokens, all)
    decreases rest
  {
    if rest == [] {
      if current != [] {
        FlattenOneMore(chunks, current);
        ChunkingOneMore(cost, maxTokens, chunks, current);
      }
    } else {
      var (closed, open) := MakeRoom(cost, rest[0], maxTokens, chunks, current);
      var grown := open + [rest[0]];
      MakeRoomKeeps(cost, rest[0], maxTokens, chunks, current);
      TokensOfOneMore(cost, open, rest[0]);
      RegroupRest(Flatten(chunks) + current, Flatten(closed), open, rest);
      if cost(rest[0]) > maxTokens {
        FlattenOneMore(closed, grown);
        ChunkingOneMore(cost, maxTokens, closed, grown);
        ChunkFromIsChunking(cost, rest[1..], maxTokens, closed + [grown], []);
        assert Flatten(closed + [grown]) + [] == Flatten(closed) + grown;
      } else {
        ChunkFromIsChunking(cost, rest[1..], maxTokens, closed, grown);
      }
    }
  }

  lemma RegroupRest(whole: seq<Message>, closed: seq<Message>, open: seq<Message>, rest: seq<Message>)
    requires closed + open == whole && rest != []
    ensures whole + rest == closed + (open + [rest[0]]) + rest[1..]
  {
  }

  /** Chunking keeps every message in order, and closes none that still had room. */
  lemma ChunksAreWithinLimit(cost: CostModel, ms: seq<Message>, maxTokens: int)
    ensures var chunks := ChunkFrom(cost, ms, maxTokens, [], []);
      Flatten(chunks) == ms && IsChunking(cost, maxTokens, chunks)
  {
    ChunkFromIsChunking(cost, ms, maxTokens, [], []);
  }
}
