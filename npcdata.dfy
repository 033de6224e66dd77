/**
 * The NPC records of the game: five characters, each with a relationship
 * level from 0 to 100, a keyword test for the answers they like, dialogue
 * options and a conversation history.
 *
 * The module-level record of the source is the `npcs` map of an `NpcStore`;
 * the two updaters change one entry of it and report whether the id was known.
 */
module NpcData {
  import opened Options

  datatype Speaker = User | Npc

  datatype ConversationEntry = ConversationEntry(id: string, speaker: Speaker, text: string, timestamp: int)

  /** A canned question with the change in relationship it causes. */
  datatype DialogueOption = DialogueOption(id: string, text: string, relationshipEffect: int)

  /** An NPC. `favoriteKeywords` stands for `favoriteResponse`: the answer is a
      favourite exactly when it contains one of these words. */
  datatype NpcRecord = NpcRecord(
    id: string,
    name: string,
    size: int,
    interests: seq<string>,
    favoriteKeywords: seq<string>,
    relationship: int,
    dialogueOptions: seq<DialogueOption>,
    conversationHistory: seq<ConversationEntry>)

  // ---------------------------------------------------------------------------
  // Substrings and favourite answers

  /** `text.includes(word)`, scanning from the front. */
  predicate Contains(text: string, word: string)
    decreases |text|
  {
    word <= text || (|text| > 0 && Contains(text[1..], word))
  }

  /** `word` occurs in `text` at offset `i`. */
  predicate OccursAt(text: string, word: string, i: int) {
    0 <= i && i + |word| <= |text| && text[i..i + |word|] == word
  }

  /** An occurrence at any offset is found by the scan. */
  lemma {:induction false} OccursThenContains(text: string, word: string, i: int)
    requires OccursAt(text, word, i)
    ensures Contains(text, word)
    decreases i
  {
    if i == 0 {
      assert text[..|word|] == word;
    } else {
      assert text[1..][i - 1..i - 1 + |word|] == text[i..i + |word|];
      OccursThenContains(text[1..], word, i - 1);
    }
  }

  /** What the scan finds occurs at some offset. */
  lemma {:induction false} ContainsThenOccurs(text: string, word: string) returns (i: int)
    requires Contains(text, word)
    ensures OccursAt(text, word, i)
    decreases |text|
  {
    if word <= text {
      assert text[0..|word|] == word;
      i := 0;
    } else {
      var j := ContainsThenOccurs(text[1..], word);
      assert text[j + 1..j + 1 + |word|] == text[1..][j..j + |word|];
      i := j + 1;
    }
  }

  /** The scan finds the word exactly when it occurs at some offset. */
  lemma ContainsIffOccurs(text: string, word: string)
    ensures Contains(text, word) <==> exists i :: OccursAt(text, word, i)
  {
    if Contains(text, word) {
      var i := ContainsThenOccurs(text, word);
    }
    forall i | OccursAt(text, word, i)
      ensures Contains(text, word)
    {
      OccursThenContains(text, word, i);
    }
  }

  /** `favoriteResponse(text)`: some favourite keyword occurs in the text. */
  predicate FavoriteResponse(npc: NpcRecord, text: string) {
    exists k | 0 <= k < |npc.favoriteKeywords| :: Contains(text, npc.favoriteKeywords[k])
  }

  // ---------------------------------------------------------------------------
  // The table

  const NpcIds: seq<string> := ["npc-1", "npc-2", "npc-3", "npc-4", "npc-5"]

  function NewNpc(id: string, name: string, interests: seq<string>, keywords: seq<string>,
                  options: seq<DialogueOption>): NpcRecord {
    NpcRecord(id, name, 1, interests, keywords, 50, options, [])
  }

  /** The initial `npcData` record. */
  function InitialNpcs(): map<string, NpcRecord> {
    map[
      "npc-1" := NewNpc("npc-1", "诗人", ["古典诗词", "山水画", "品茶", "古琴音乐"], ["诗", "词", "文学"],
        [DialogueOption("poetry-1", "能否为我吟诵一首诗？", 5),
         DialogueOption("poetry-2", "请教我如何写诗", 7),
         DialogueOption("poetry-3", "你觉得当代诗歌如何？", 3)]),
      "npc-2" := NewNpc("npc-2", "画家", ["山水画", "书法", "古琴", "收集奇石"], ["画", "山水", "艺术"],
        [DialogueOption("art-1", "如何欣赏山水画？", 6),
         DialogueOption("art-2", "能否指点我学画？", 8),
         DialogueOption("art-3", "你最欣赏哪位古代画家？", 4)]),
      "npc-3" := NewNpc("npc-3", "琴师", ["古琴演奏", "诗词", "茶道", "修心养性"], ["琴", "音乐", "弹奏"],
        [DialogueOption("music-1", "能否为我演奏一曲？", 7),
         DialogueOption("music-2", "如何入门学习古琴？", 5),
         DialogueOption("music-3", "琴棋书画，你最看重哪一项？", 3)]),
      "npc-4" := NewNpc("npc-4", "儒者", ["儒家经典", "历史研究", "教育", "书法"], ["儒", "经典", "道德"],
        [DialogueOption("confucian-1", "儒家思想的核心是什么？", 6),
         DialogueOption("confucian-2", "如何理解\"中庸之道\"？", 7),
         DialogueOption("confucian-3", "儒家思想在当代有何价值？", 8)]),
      "npc-5" := NewNpc("npc-5", "茶艺师", ["茶艺", "花艺", "香道", "陶瓷收藏"], ["茶", "品茗", "文化"],
        [DialogueOption("tea-1", "能否为我泡一杯茶？", 6),
         DialogueOption("tea-2", "如何鉴别好茶？", 7),
         DialogueOption("tea-3", "茶道与禅有何关联？", 8)])
    ]
  }

  /** Every entry of the table is filed under its own id and starts at
      relationship 50 with an empty history; the ids are exactly npc-1 .. npc-5. */
  lemma InitialTableFacts()
    ensures InitialNpcs().Keys == set k | 0 <= k < |NpcIds| :: NpcIds[k]
    ensures forall id :: id in InitialNpcs() ==>
      var npc := InitialNpcs()[id];
      npc.id == id && npc.relationship == 50 && npc.conversationHistory == [] && |npc.favoriteKeywords| == 3
  {
    var keys := set k | 0 <= k < |NpcIds| :: NpcIds[k];
    assert NpcIds[0] in keys && NpcIds[1] in keys && NpcIds[2] in keys && NpcIds[3] in keys && NpcIds[4] in keys;
  }

  /** npc-1 likes an answer exactly when it mentions 诗, 词 or 文学. */
  lemma PoetFavorite(text: string)
    ensures FavoriteResponse(InitialNpcs()["npc-1"], text) <==>
      Contains(text, "诗") || Contains(text, "词") || Contains(text, "文学")
  {
    var kw := InitialNpcs()["npc-1"].favoriteKeywords;
    assert kw == ["诗", "词", "文学"];
    if Contains(text, "诗") {
      assert Contains(text, kw[0]);
    } else if Contains(text, "词") {
      assert Contains(text, kw[1]);
    } else if Contains(text, "文学") {
      assert Contains(text, kw[2]);
    }
  }

  /** `Math.max(lo, Math.min(hi, x))`. */
  function Clamp(x: int, lo: int, hi: int): (r: int)
    requires lo <= hi
    ensures lo <= r <= hi
    ensures lo <= x <= hi ==> r == x
    ensures x < lo ==> r == lo
    ensures x > hi ==> r == hi
  {
    if hi < x then hi else if x < lo then lo else x
  }

  /** Records are filed under their ids and every relationship is within 0..100. */
  predicate WellFiled(npcs: map<string, NpcRecord>) {
    forall id :: id in npcs ==> npcs[id].id == id && 0 <= npcs[id].relationship <= 100
  }

  class NpcStore {
    var npcs: map<string, NpcRecord>

    ghost predicate Valid()
      reads this
    {
      npcs.Keys == InitialNpcs().Keys && WellFiled(npcs)
    }

    constructor ()
      ensures Valid()
      ensures npcs == InitialNpcs()
    {
      npcs := InitialNpcs();
      InitialTableFacts();
    }

    /** `getNPCData(id)`: the record filed under `id`, if any. */
    function GetNPCData(id: string): (found: Option<NpcRecord>)
      reads this
      ensures found.Some? <==> id in npcs
      ensures found.Some? ==> found.value == npcs[id]
      ensures Valid() && found.Some? ==> found.value.id == id && 0 <= found.value.relationship <= 100
    {
      if id in npcs then Some(npcs[id]) else None
    }

    /** `getAllNPCs()`: the records in the table's order, npc-1 first. */
    function GetAllNPCs(): (all: seq<NpcRecord>)
      reads this
      requires Valid()
      ensures |all| == |NpcIds|
      ensures forall i :: 0 <= i < |all| ==> all[i].id == NpcIds[i]
      ensures forall id :: id in npcs ==> npcs[id] in all
    {
      InitialTableFacts();
      var table := npcs;
      var all := seq(|NpcIds|, i requires 0 <= i < |NpcIds| => table[NpcIds[i]]);
      assert forall id :: id in npcs ==> exists i :: 0 <= i < |NpcIds| && NpcIds[i] == id && all[i] == npcs[id];
      all
    }

    /** `updateNPCRelationship(id, change)`: for a known id, the relationship
        becomes old + change clamped to 0..100 and nothing else changes; an
        unknown id changes nothing and answers false. */
    method UpdateNPCRelationship(id: string, change: int) returns (updated: bool)
      requires Valid()
      modifies this
      ensures Valid()
      ensures updated <==> id in old(npcs)
      ensures updated ==>
        var npc := old(npcs)[id];
        npcs == old(npcs)[id := npc.(relationship := Clamp(npc.relationship + change, 0, 100))]
      ensures !updated ==> npcs == old(npcs)
    {
      if id in npcs {
        var npc := npcs[id];
        npcs := npcs[id := npc.(relationship := Clamp(npc.relationship + change, 0, 100))];
        return true;
      }
      return false;
    }

    /** `addConversationEntry(npcId, entry)`: for a known id, one entry with the
        given speaker and text, the generated id `entryId` and timestamp `now`
        is appended to that NPC's history; an unknown id changes nothing. */
    method AddConversationEntry(npcId: string, speaker: Speaker, text: string, entryId: string, now: int)
      returns (added: bool)
      requires Valid()
      modifies this
      ensures Valid()
      ensures added <==> npcId in old(npcs)
      ensures added ==>
        var npc := old(npcs)[npcId];
        npcs == old(npcs)[npcId := npc.(conversationHistory := npc.conversationHistory + [ConversationEntry(entryId, speaker, text, now)])]
      ensures !added ==> npcs == old(npcs)
    {
      if npcId in npcs {
        var npc := npcs[npcId];
        var newEntry := ConversationEntry(entryId, speaker, text, now);
        npcs := npcs[npcId := npc.(conversationHistory := npc.conversationHistory + [newEntry])];
        return true;
      }
      return false;
    }
  }

  /** Updating a known NPC leaves its relationship within 0..100 whatever the
      change, and leaves every other NPC as it was. */
  lemma RelationshipUpdateBounded(npcs: map<string, NpcRecord>, id: string, change: int)
    requires id in npcs
    ensures var npc := npcs[id];
      var after := npcs[id := npc.(relationship := Clamp(npc.relationship + change, 0, 100))];
      && 0 <= after[id].relationship <= 100
      && (0 <= npc.relationship + change <= 100 ==> after[id].relationship == npc.relationship + change)
      && (forall other :: other in npcs && other != id ==> after[other] == npcs[other])
      && after.Keys == npcs.Keys
  {
  }

  /** Appending keeps the earlier history as a prefix and puts the new entry last. */
  lemma AppendKeepsHistory(history: seq<ConversationEntry>, e: ConversationEntry)
    ensures var h := history + [e];
      |h| == |history| + 1 && h[..|history|] == history && h[|history|] == e
  {
  }
}
