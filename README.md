# Node map generation, the N-Quads tokenizer and the active context of a JSON-LD processor

This project models three parts of a Java JSON-LD 1.1 processor in Dafny. Each part is modelled in the same form it has in Java, and the properties its code promises are proved about the model.

- **Node map generation** (`NodeMapBuilder`, the flattening step). An expanded JSON-LD element is walked recursively, and every node it contains is recorded in a node map: graph name, then node id, then property, then value. Blank node identifiers are relabelled to `_:b0`, `_:b1` and so on, through one shared table.
  - Module `FlatteningSpec` gives each `handle` step of the builder as a function from the node map state to a new state, or to an error.
  - Module `Flattening` gives the same steps as methods. They update a `NodeMap` object in place, and update the caller's list accumulator (`ListBuffer`) where Java does `list.put`. Each method is proved to leave the node map and the list exactly as its function says.
  - `FlatteningProps`, `NodeMapGrowth` and `NodeMapRefs` prove what the steps promise:
    - a value is stored at most once;
    - list objects keep their order;
    - `@type` is merged without duplicates;
    - a second `@index` is an error;
    - the list accumulator is untouched outside a list;
    - the values of a reverse property gain a reference back to the node;
    - a successful run never drops a node, a property, a non-null array item or a relabelling;
    - every reference `{"@id": x}` stored in the map or left in the list, also inside list objects, names a node that has a record in the same graph.
- **The N-Quads tokenizer** (`Tokenizer`). The tokenizer reads a character stream through a reader with `mark`/`reset` and keeps one token of lookahead.
  - Module `NQuadsLexer` defines what `doRead` returns at each position, and what `hasNext`, `next`, `token` and `accept` return and leave behind.
  - Module `NQuadsTokenizer` contains a `Reader` class, and a `Tokenizer` class that has the lookahead field and one loop per `read*`/`skip*` routine. Each method is proved against the lexer functions.
  - `NQuadsProps` proves:
    - round trips for IRIs and string literals, with the error for each malformed input (`NQuadsProps.IriErrors`, `NQuadsProps.StringErrors`);
    - the shapes of language tags and blank node labels;
    - the lookahead protocol.
- **The active context** (`ActiveContext`). This is a table of term definitions with base IRIs, a processing mode and an optional previous context. The table is a separate heap object (`TermTable`), because the Java copy constructor shares the origin's map instead of copying it. The model proves that a term set or removed through a copy is seen through the origin.

Code units of the N-Quads input are `Unit` values, 0 to 0xFFFF, the Java `char`. `read()` returning -1 at the end is `EOF`. JSON values are a datatype whose objects are member sequences. Java `null` for an absent value is `Option.None`.

Where the code and the prose design of the processor disagree, the model follows the code:
- **A second `@index` always fails.** Step 6.8 fails with `ConflictingIndexes` whenever the node already has an `@index`, even when the two values are equal. `FlatteningProps.IndexConflict` states this.
- **Value de-duplication compares the element as given.** Step 4 compares the element, not the relabelled copy it stores. So a value object with a blank-node `@type` is stored twice when it is met twice (`FlatteningProps.ValueWithBlankTypeStoredTwice`).
- **The `delim` checks of `readLangTag` and `readBlankNode` never fire.** A loop only ends on a character that is not `-` (or not `.`), so `delim` is always false when it is tested. A language tag may therefore end with `-` (`NQuadsProps.LangTagTrailingDash`). A blank node label takes a trailing `.` into the label (`NQuadsProps.BlankNodeSwallowsDot`).
- **The first `next()` skips the first token.** `hasNext()` fills the empty lookahead, and `next()` then reads again (`NQuadsProps.FirstNextSkipsToken`).

## Model

| member | source | states |
|---|---|---|
| Flattening.Generate | src/main/java/com/apicatalog/jsonld/flattening/NodeMapBuilder.java:59-72 | from a fresh builder frame (default graph, no subject, property, list or referenced node), the node map ends as, or fails with the error of, the node map generation of the element |
| Flattening.Build | src/main/java/com/apicatalog/jsonld/flattening/NodeMapBuilder.java:100-131 | the dispatch order array, value object, list object, node object, else nothing; the node map and list end exactly as the specification's `Build` says, or the same error is returned |
| Flattening.Handle1 | src/main/java/com/apicatalog/jsonld/flattening/NodeMapBuilder.java:147-174 | each member of the array in order with the same frame; a scalar member fails with `IllegalState`; the loop's node map and list agree with `BuildItems` from index 0 |
| Flattening.Handle3 | src/main/java/com/apicatalog/jsonld/flattening/NodeMapBuilder.java:133-145 | the working copy and node map after relabelling blank-prefixed `@type` strings are those of `Prepare` |
| Flattening.RelabelType | src/main/java/com/apicatalog/jsonld/flattening/NodeMapBuilder.java:137-140 | one `@type` item: a blank-prefixed string is replaced by its relabelling, anything else kept, as `RenameType` says |
| Flattening.Handle4 | src/main/java/com/apicatalog/jsonld/flattening/NodeMapBuilder.java:500-523 | a value object goes to the list in scope, or onto the subject's property array unless already there, or becomes a new one-element array; agrees with `HandleValue` |
| Flattening.NoneMatch | src/main/java/com/apicatalog/jsonld/flattening/NodeMapBuilder.java:437-459 | the result is true exactly when no element of the array equals the value |
| Flattening.Handle5 | src/main/java/com/apicatalog/jsonld/flattening/NodeMapBuilder.java:461-498 | a list object is collected into a fresh list and then appended, without de-duplication, to the list in scope or the subject's property; agrees with `HandleList` |
| Flattening.Handle6 | src/main/java/com/apicatalog/jsonld/flattening/NodeMapBuilder.java:176-244 | a node object: its id, its record, the link into the enclosing node, then steps 6.7 to 6.12; agrees with `HandleNode` |
| Flattening.NodeIdentifier | src/main/java/com/apicatalog/jsonld/flattening/NodeMapBuilder.java:180-198 | a string `@id` is kept or relabelled when blank, a missing one gets a fresh blank identifier, as `NodeId` says |
| Flattening.Link | src/main/java/com/apicatalog/jsonld/flattening/NodeMapBuilder.java:208-216 | a referenced node takes step 6.5, otherwise an active property takes step 6.6, otherwise nothing happens |
| Flattening.Handle6_5 | src/main/java/com/apicatalog/jsonld/flattening/NodeMapBuilder.java:273-287 | the referenced node is added to the node's property array unless present, or becomes a one-element array |
| Flattening.Handle6_6 | src/main/java/com/apicatalog/jsonld/flattening/NodeMapBuilder.java:289-325 | the reference `{"@id": id}` goes to the list in scope, or onto the subject's property array unless present; agrees with `LinkReference` |
| Flattening.Append | src/main/java/com/apicatalog/jsonld/flattening/NodeMapBuilder.java:480-492 | appends to the stored array, or stores a one-element array when the property is missing, as `Append` says |
| Flattening.AppendUnique | src/main/java/com/apicatalog/jsonld/flattening/NodeMapBuilder.java:275-286 | appends to the stored array unless it holds the value, or stores a one-element array, as `AppendUnique` says |
| Flattening.HandleNodeBody | src/main/java/com/apicatalog/jsonld/flattening/NodeMapBuilder.java:218-243 | steps 6.7 and 6.8 and then the embedded members, in the source's order; agrees with `NodeBody` |
| Flattening.HandleNodeMembers | src/main/java/com/apicatalog/jsonld/flattening/NodeMapBuilder.java:226-243 | steps 6.9 to 6.12 in order, each on the working copy with its key removed; agrees with `NodeMembers` |
| Flattening.Handle6_7 | src/main/java/com/apicatalog/jsonld/flattening/NodeMapBuilder.java:327-362 | the node's stored `@type` becomes the merged type array |
| Flattening.MergeTypeValues | src/main/java/com/apicatalog/jsonld/flattening/NodeMapBuilder.java:330-357 | the two loops: non-null stored types, then non-null declared types, each added as to an ordered set |
| Flattening.AddValues | src/main/java/com/apicatalog/jsonld/flattening/NodeMapBuilder.java:332-356 | an array's non-null members, or a single non-null value, added in order to the set |
| Flattening.OptimizedAddToSet | src/main/java/com/apicatalog/jsonld/flattening/NodeMapBuilder.java:364-376 | whichever representation it uses, the result is the ordered-set insertion of the value |
| Flattening.Handle6_8 | src/main/java/com/apicatalog/jsonld/flattening/NodeMapBuilder.java:264-271 | fails with `ConflictingIndexes` when the node has an `@index`, otherwise stores the value |
| Flattening.Handle6_9 | src/main/java/com/apicatalog/jsonld/flattening/NodeMapBuilder.java:378-404 | every reverse property's values in order, each built with the node as referenced node; a non-object `@reverse` fails with `ClassCast` |
| Flattening.Handle6_10 | src/main/java/com/apicatalog/jsonld/flattening/NodeMapBuilder.java:255-262 | the `@graph` value is built with the node's id as active graph |
| Flattening.Handle6_11 | src/main/java/com/apicatalog/jsonld/flattening/NodeMapBuilder.java:246-253 | the `@included` value is built in the active graph |
| Flattening.Handle6_12 | src/main/java/com/apicatalog/jsonld/flattening/NodeMapBuilder.java:406-435 | the loop over the sorted keys agrees with `HandleProperties` |
| Flattening.Handle6_12Property | src/main/java/com/apicatalog/jsonld/flattening/NodeMapBuilder.java:408-434 | one key: non-structures are skipped, otherwise the name is relabelled when blank, an empty array is ensured, and the value is built with the node as subject and the key as property |
| Flattening.ListBuffer.Add | src/main/java/com/apicatalog/jsonld/flattening/NodeMapBuilder.java:496 | the list's items gain the value at the end |
| Flattening.RenameTypesStep | src/main/java/com/apicatalog/jsonld/flattening/NodeMapBuilder.java:137-141 | relabelling a sequence of types is relabelling its head and then its tail, threading the table |
| FlatteningSpec.Prepare | src/main/java/com/apicatalog/jsonld/flattening/NodeMapBuilder.java:133-145 | the working copy has the same keys as the element and the same value for every key except `@type`; no node record changes and the relabelling table only grows |
| FlatteningSpec.RenameTypes | src/main/java/com/apicatalog/jsonld/flattening/NodeMapBuilder.java:137-141 | one output item per input item; no node record changes and the table only grows |
| FlatteningSpec.RenameType | src/main/java/com/apicatalog/jsonld/flattening/NodeMapBuilder.java:138-140 | exactly one output item; no node record changes and the table only grows |
| FlatteningProps.OutsideList | src/main/java/com/apicatalog/jsonld/flattening/NodeMapBuilder.java:100-131 | with no list in scope, the run is the same whatever list is passed, and the list comes back unchanged |
| FlatteningProps.ValueOutsideList | src/main/java/com/apicatalog/jsonld/flattening/NodeMapBuilder.java:500-523 | step 4 outside a list neither reads nor writes the list |
| FlatteningProps.ListOutsideList | src/main/java/com/apicatalog/jsonld/flattening/NodeMapBuilder.java:461-498 | step 5 outside a list neither reads nor writes the outer list |
| FlatteningProps.NodeOutsideList | src/main/java/com/apicatalog/jsonld/flattening/NodeMapBuilder.java:176-244 | step 6 outside a list neither reads nor writes the list |
| FlatteningProps.ItemsOutsideList | src/main/java/com/apicatalog/jsonld/flattening/NodeMapBuilder.java:147-174 | step 1 outside a list neither reads nor writes the list |
| FlatteningProps.ArraySingleton | src/main/java/com/apicatalog/jsonld/flattening/NodeMapBuilder.java:150-172 | a one-member array is its member, or `IllegalState` for a scalar |
| FlatteningProps.ArrayConcat | src/main/java/com/apicatalog/jsonld/flattening/NodeMapBuilder.java:150-172 | building the concatenation of two arrays is building the first and then the second from the state it leaves, stopping at the first error |
| FlatteningProps.ItemsConcat | src/main/java/com/apicatalog/jsonld/flattening/NodeMapBuilder.java:150-172 | the loop over `xs + ys` from index i is the loop over `xs` from i, then over `ys` from 0 |
| FlatteningProps.ItemsShift | src/main/java/com/apicatalog/jsonld/flattening/NodeMapBuilder.java:150-172 | the loop over `xs + ys` past `xs` is the loop over `ys` |
| FlatteningProps.ValueInList | src/main/java/com/apicatalog/jsonld/flattening/NodeMapBuilder.java:520-521 | inside a list, a value object is appended as given, even when the list already holds it |
| FlatteningProps.ValueAtMostOnce | src/main/java/com/apicatalog/jsonld/flattening/NodeMapBuilder.java:505-519 | outside a list, the value occurs in the property's array at least once, and one more time only when it was absent; a missing property becomes an array of the working copy; no other property and no other value count changes |
| FlatteningProps.ValueIdempotent | src/main/java/com/apicatalog/jsonld/flattening/NodeMapBuilder.java:505-519 | without `@type`, processing the same value object a second time changes nothing |
| FlatteningProps.ValueWithBlankTypeStoredTwice | src/main/java/com/apicatalog/jsonld/flattening/NodeMapBuilder.java:509-516 | with a blank-node `@type`, the stored copy differs from the element, so a second pass appends the element again |
| FlatteningProps.ValuesIntoList | src/main/java/com/apicatalog/jsonld/flattening/NodeMapBuilder.java:150-172 | inside a list, plain value objects are appended to the list in order, and nothing else changes |
| FlatteningProps.ListOfValues | src/main/java/com/apicatalog/jsonld/flattening/NodeMapBuilder.java:461-498 | a list of plain values is collected in order and appended as one list object, without de-duplication, to the list in scope or the property |
| FlatteningProps.AppendCount | src/main/java/com/apicatalog/jsonld/flattening/NodeMapBuilder.java:480-492 | an append adds exactly one occurrence of the value and changes no other count and no other property |
| FlatteningProps.AppendUniqueCount | src/main/java/com/apicatalog/jsonld/flattening/NodeMapBuilder.java:275-286 | the value occurs at least once afterwards, one more time only if it was absent; nothing else changes |
| FlatteningProps.ReferenceLink | src/main/java/com/apicatalog/jsonld/flattening/NodeMapBuilder.java:289-325 | the reference goes to the list in scope unconditionally, or at most once onto the subject's property |
| FlatteningProps.ReferencedLink | src/main/java/com/apicatalog/jsonld/flattening/NodeMapBuilder.java:208-213 | with a referenced node, whatever the subject and the list state, the reference to it is added at most once to the node's own property, the list is passed on, and the step fails exactly when the de-duplicated append does |
| FlatteningProps.ReverseNodeLinked | src/main/java/com/apicatalog/jsonld/flattening/NodeMapBuilder.java:200-213 | any node object met with a referenced node holds the reference to it under the active property once its own members are processed, and the list is passed on unchanged |
| FlatteningProps.NamedNodeId | src/main/java/com/apicatalog/jsonld/flattening/NodeMapBuilder.java:179-194 | a node whose `@id` is a string without the blank prefix keeps that id |
| FlatteningProps.ReverseValuesLinked | src/main/java/com/apicatalog/jsonld/flattening/NodeMapBuilder.java:386-401 | every named node among the values of one reverse property holds the reference back to the node under that property |
| FlatteningProps.ReverseEntriesLinked | src/main/java/com/apicatalog/jsonld/flattening/NodeMapBuilder.java:386-401 | the same for every reverse property from a given position on |
| FlatteningProps.ReverseLinked | src/main/java/com/apicatalog/jsonld/flattening/NodeMapBuilder.java:378-404 | after `@reverse` of a node is processed, every named node among the values of any reverse property `p` holds `{"@id": node}` under `p` |
| FlatteningProps.ReverseChild | src/main/java/com/apicatalog/jsonld/flattening/NodeMapBuilder.java:273-287 | a node `{"@id": c}` met as a reverse value creates c's record if needed and adds the referenced node at most once under the active property, leaving the list alone |
| FlatteningProps.NonStringIdSkipped | src/main/java/com/apicatalog/jsonld/flattening/NodeMapBuilder.java:182-187 | a null or non-string `@id` ends step 6 with the node map and the list unchanged |
| FlatteningProps.NodeRecord | src/main/java/com/apicatalog/jsonld/flattening/NodeMapBuilder.java:200-203 | after a node object the graph has a record for its id; a new record holds `@id` equal to the id; nothing already stored is lost |
| FlatteningProps.NodeReferenceInList | src/main/java/com/apicatalog/jsonld/flattening/NodeMapBuilder.java:322-323 | a node object inside a list adds exactly one reference to itself at the end of the list |
| NodeMapGrowth.AddAllContents | src/main/java/com/apicatalog/jsonld/flattening/NodeMapBuilder.java:332-356 | adding a sequence to the ordered set gives exactly the old members and the new non-null ones, and keeps it duplicate-free |
| FlatteningProps.TypesMerged | src/main/java/com/apicatalog/jsonld/flattening/NodeMapBuilder.java:327-362 | the stored `@type` becomes an array of exactly the non-null stored and declared types, without duplicates |
| FlatteningProps.IndexConflict | src/main/java/com/apicatalog/jsonld/flattening/NodeMapBuilder.java:264-268 | a node that already has an `@index` fails with `ConflictingIndexes` on any second one, equal or not |
| FlatteningProps.IndexStored | src/main/java/com/apicatalog/jsonld/flattening/NodeMapBuilder.java:264-271 | storing an index fails exactly when one is stored, and otherwise records the value |
| FlatteningProps.PropertyStep | src/main/java/com/apicatalog/jsonld/flattening/NodeMapBuilder.java:408-434 | a missing or scalar value leaves the state unchanged; otherwise the node has the property afterwards, under its relabelled name when blank |
| NodeMapGrowth.BuildPersists | src/main/java/com/apicatalog/jsonld/flattening/NodeMapBuilder.java:100-131 | a successful run keeps every node, every property, every non-null item of a stored array, every stored value that is neither an array nor `@type`, and every relabelling |
| NodeMapGrowth.MergedKeeps | src/main/java/com/apicatalog/jsonld/flattening/NodeMapBuilder.java:327-362 | the merged `@type` keeps every non-null type stored before |
| NodeMapGrowth.ItemsPersists | src/main/java/com/apicatalog/jsonld/flattening/NodeMapBuilder.java:147-174 | the same for the array loop |
| NodeMapGrowth.ValuePersists | src/main/java/com/apicatalog/jsonld/flattening/NodeMapBuilder.java:500-523 | the same for step 4 |
| NodeMapGrowth.ListPersists | src/main/java/com/apicatalog/jsonld/flattening/NodeMapBuilder.java:461-498 | the same for step 5 |
| NodeMapGrowth.LinkPersists | src/main/java/com/apicatalog/jsonld/flattening/NodeMapBuilder.java:208-216 | the same for steps 6.5 and 6.6 |
| NodeMapGrowth.NodePersists | src/main/java/com/apicatalog/jsonld/flattening/NodeMapBuilder.java:176-244 | the same for step 6 |
| NodeMapGrowth.BodyPersists | src/main/java/com/apicatalog/jsonld/flattening/NodeMapBuilder.java:218-243 | the same for steps 6.7 to 6.12 |
| NodeMapGrowth.MembersPersists | src/main/java/com/apicatalog/jsonld/flattening/NodeMapBuilder.java:226-243 | the same for steps 6.9 to 6.12 |
| NodeMapGrowth.AppendPersists | src/main/java/com/apicatalog/jsonld/flattening/NodeMapBuilder.java:480-492 | an append keeps everything already stored |
| NodeMapGrowth.AppendUniquePersists | src/main/java/com/apicatalog/jsonld/flattening/NodeMapBuilder.java:275-286 | a de-duplicated append keeps everything already stored |
| NodeMapGrowth.SetInPersists | src/main/java/com/apicatalog/jsonld/flattening/NodeMapBuilder.java:359 | a write that replaces `@type`, or no settled value, and drops no non-null item of a stored array, keeps everything else |
| NodeMapGrowth.PersistsTrans | src/main/java/com/apicatalog/jsonld/flattening/NodeMapBuilder.java:100-131 | keeping what is stored composes over successive steps |
| NodeMapRefs.ResolvedKept | src/main/java/com/apicatalog/jsonld/flattening/NodeMapBuilder.java:201-203 | a value whose references resolve still does when records are added |
| NodeMapRefs.ValueObjectResolved | src/main/java/com/apicatalog/jsonld/flattening/NodeMapBuilder.java:500-523 | a value object carries no reference of its own |
| NodeMapRefs.ListObjectResolved | src/main/java/com/apicatalog/jsonld/flattening/NodeMapBuilder.java:477-493 | a list object resolves exactly when its items do |
| NodeMapRefs.CompleteSetIn | src/main/java/com/apicatalog/jsonld/flattening/NodeMapBuilder.java:202 | a write keeps the map complete when the value written resolves or is not under a linking property |
| NodeMapRefs.CompleteAppend | src/main/java/com/apicatalog/jsonld/flattening/NodeMapBuilder.java:480-492 | appending a resolved item keeps the map complete |
| NodeMapRefs.CompleteAppendUnique | src/main/java/com/apicatalog/jsonld/flattening/NodeMapBuilder.java:275-286 | appending a resolved item unless present keeps the map complete |
| NodeMapRefs.BuildComplete | src/main/java/com/apicatalog/jsonld/flattening/NodeMapBuilder.java:100-131 | from a complete map, a list whose references resolve and a referenced node that has a record, a successful run leaves a complete map and a list whose references resolve |
| NodeMapRefs.ItemsComplete | src/main/java/com/apicatalog/jsonld/flattening/NodeMapBuilder.java:147-174 | the same for the array loop |
| NodeMapRefs.ValueComplete | src/main/java/com/apicatalog/jsonld/flattening/NodeMapBuilder.java:500-523 | the same for step 4 |
| NodeMapRefs.ListComplete | src/main/java/com/apicatalog/jsonld/flattening/NodeMapBuilder.java:461-498 | the same for step 5, whose list object holds only resolved items |
| NodeMapRefs.LinkComplete | src/main/java/com/apicatalog/jsonld/flattening/NodeMapBuilder.java:207-216 | steps 6.5 and 6.6 store or list only references to the node and to the referenced node, both of which have records |
| NodeMapRefs.EnsureNodeReady | src/main/java/com/apicatalog/jsonld/flattening/NodeMapBuilder.java:200-203 | step 6.3 leaves a record for the node and keeps the map complete |
| NodeMapRefs.NodeLinkComplete | src/main/java/com/apicatalog/jsonld/flattening/NodeMapBuilder.java:179-216 | steps 6.1 to 6.6 leave a record for the node, a complete map and a resolved list |
| NodeMapRefs.NodeComplete | src/main/java/com/apicatalog/jsonld/flattening/NodeMapBuilder.java:176-244 | the same for step 6 |
| NodeMapRefs.BodyComplete | src/main/java/com/apicatalog/jsonld/flattening/NodeMapBuilder.java:218-243 | steps 6.7 to 6.12 keep the map complete, given a record for the node |
| NodeMapRefs.MembersComplete | src/main/java/com/apicatalog/jsonld/flattening/NodeMapBuilder.java:228-243 | steps 6.9 to 6.12 keep the map complete, given a record for the node |
| NodeMapRefs.ReverseComplete | src/main/java/com/apicatalog/jsonld/flattening/NodeMapBuilder.java:378-404 | step 6.9 keeps the map complete, the node being the referenced node |
| NodeMapRefs.EntriesComplete | src/main/java/com/apicatalog/jsonld/flattening/NodeMapBuilder.java:386-401 | the same for the reverse properties from a given position on |
| NodeMapRefs.ValuesComplete | src/main/java/com/apicatalog/jsonld/flattening/NodeMapBuilder.java:389-400 | the same for the values of one reverse property |
| NodeMapRefs.GraphComplete | src/main/java/com/apicatalog/jsonld/flattening/NodeMapBuilder.java:255-262 | step 6.10 keeps the map complete |
| NodeMapRefs.IncludedComplete | src/main/java/com/apicatalog/jsonld/flattening/NodeMapBuilder.java:246-253 | step 6.11 keeps the map complete |
| NodeMapRefs.PropertiesComplete | src/main/java/com/apicatalog/jsonld/flattening/NodeMapBuilder.java:406-435 | step 6.12 keeps the map complete |
| NodeMapRefs.PropertyComplete | src/main/java/com/apicatalog/jsonld/flattening/NodeMapBuilder.java:408-434 | the same for one key, whose empty array placeholder holds no reference |
| NodeMapRefs.GenerateComplete | src/main/java/com/apicatalog/jsonld/flattening/NodeMapBuilder.java:71-72 | `with(element, nodeMap).build()` keeps a complete node map complete |
| NodeMapRefs.GenerateFromEmptyComplete | src/main/java/com/apicatalog/jsonld/flattening/NodeMapBuilder.java:71-72 | a node map generated from an empty one is complete: every reference stored under a property other than `@type` and `@index` names a record in the same graph |
| Utils.UnitRank | src/main/java/com/apicatalog/jsonld/flattening/NodeMapBuilder.java:408 | characters below U+D800 and above U+FFFF keep their code point as rank; U+E000 to U+FFFF rank above every code point, as their UTF-16 units sort after high surrogates |
| NodeMaps.NodeMap.CreateIdentifier | src/main/java/com/apicatalog/jsonld/flattening/NodeMapBuilder.java:191 | the identifier and node map after relabelling a blank name are those of `Rename` |
| NodeMaps.NodeMap.CreateFreshIdentifier | src/main/java/com/apicatalog/jsonld/flattening/NodeMapBuilder.java:197 | the identifier and node map after issuing a fresh blank identifier are those of `Mint` |
| NodeMaps.NodeMap.Set | src/main/java/com/apicatalog/jsonld/flattening/NodeMapBuilder.java:202 | the node map's graphs gain the value at (graph, id, property); the relabelling table is unchanged |
| NodeMaps.NodeMap.Contains | src/main/java/com/apicatalog/jsonld/flattening/NodeMapBuilder.java:201 | true exactly when the graph has a record for the id |
| NodeMaps.NodeMap.ContainsProp | src/main/java/com/apicatalog/jsonld/flattening/NodeMapBuilder.java:265 | true exactly when the record has the property |
| NodeMaps.NodeMap.Get | src/main/java/com/apicatalog/jsonld/flattening/NodeMapBuilder.java:330 | the stored value at (graph, id, property), or none |
| NodeMaps.SetProperty | src/main/java/com/apicatalog/jsonld/flattening/NodeMapBuilder.java:202 | the property reads back the value; the node and property sets grow by exactly that entry; every other entry is unchanged |
| NodeMaps.Rename | src/main/java/com/apicatalog/jsonld/flattening/NodeMapBuilder.java:191 | a known name gets its recorded label and nothing changes; a new name gets a fresh blank label, recorded, with the counter one higher |
| NodeMaps.Mint | src/main/java/com/apicatalog/jsonld/flattening/NodeMapBuilder.java:197 | a blank label, with the counter one higher and the table unchanged |
| NodeMaps.MintIsFresh | src/main/java/com/apicatalog/jsonld/flattening/NodeMapBuilder.java:197 | a fresh identifier is no label already issued |
| NodeMaps.RenameIsStable | src/main/java/com/apicatalog/jsonld/flattening/NodeMapBuilder.java:191 | relabelling the same name twice gives the same label and changes nothing the second time; a new name's label was not issued before |
| NodeMaps.NatStringRoundTrip | src/main/java/com/apicatalog/jsonld/flattening/NodeMapBuilder.java:197 | the decimal counter in a label reads back as the counter |
| NodeMaps.LabelInjective | src/main/java/com/apicatalog/jsonld/flattening/NodeMapBuilder.java:197 | different counters give different labels |
| Utils.Index | src/main/java/com/apicatalog/jsonld/flattening/NodeMapBuilder.java:408 | the keys in strictly ascending order: sorted, without duplicates, with exactly the keys of the object |
| Json.Get | src/main/java/com/apicatalog/jsonld/flattening/NodeMapBuilder.java:182 | a value exactly when the object has the key, and it is that key's member |
| Json.Remove | src/main/java/com/apicatalog/jsonld/flattening/NodeMapBuilder.java:193 | the object without the key: every other key keeps its value and the key is gone |
| NQuadsLexer.Lex | src/main/java/com/apicatalog/jsonld/rdf/nq/impl/Tokenizer.java:47-102 | at the end of input `EOI` with the reader unmoved; every other token moves the reader forward; positions stay within the input |
| NQuadsLexer.RunEnd | src/main/java/com/apicatalog/jsonld/rdf/nq/impl/Tokenizer.java:118-121 | the end of the maximal run of one character class: every character before it is in the class, and the one at it is not, or it is the end of input |
| NQuadsLexer.IriEnd | src/main/java/com/apicatalog/jsonld/rdf/nq/impl/Tokenizer.java:160-185 | a found position holds the closing `>` |
| NQuadsLexer.StringEnd | src/main/java/com/apicatalog/jsonld/rdf/nq/impl/Tokenizer.java:201-234 | a found position holds the closing quote |
| NQuadsLexer.HasNext | src/main/java/com/apicatalog/jsonld/rdf/nq/impl/Tokenizer.java:343-348 | the lookahead is filled afterwards, and the answer is true exactly when it is not the end of input |
| NQuadsLexer.Next | src/main/java/com/apicatalog/jsonld/rdf/nq/impl/Tokenizer.java:24-32 | the returned token is the new lookahead |
| NQuadsLexer.Current | src/main/java/com/apicatalog/jsonld/rdf/nq/impl/Tokenizer.java:34-37 | the returned token is the lookahead |
| NQuadsProps.WhitespaceRun | src/main/java/com/apicatalog/jsonld/rdf/nq/impl/Tokenizer.java:112-130 | a whitespace run gives one `WS` token and leaves the reader, and its mark, on the first character after the run |
| NQuadsProps.EolRun | src/main/java/com/apicatalog/jsonld/rdf/nq/impl/Tokenizer.java:132-150 | a run of line ends gives one `EOL` token and leaves the reader on the first character after the run |
| NQuadsProps.Punctuation | src/main/java/com/apicatalog/jsonld/rdf/nq/impl/Tokenizer.java:69-95 | `.` gives `EOS`; `^^` gives the datatype token, `^` followed by anything else an error naming that character; any character that starts no token is an error naming it |
| NQuadsProps.IriEndSkips | src/main/java/com/apicatalog/jsonld/rdf/nq/impl/Tokenizer.java:160-181 | the IRI loop passes over permitted characters to the first `>` |
| NQuadsProps.IriEndText | src/main/java/com/apicatalog/jsonld/rdf/nq/impl/Tokenizer.java:160-181 | the text the IRI loop passes over has no forbidden character and no `>` |
| NQuadsProps.IriRoundTrip | src/main/java/com/apicatalog/jsonld/rdf/nq/impl/Tokenizer.java:152-192 | `<v>` for an IRI text v gives `IRI_REF` with value exactly v, with the reader just past the `>` |
| NQuadsProps.IriSound | src/main/java/com/apicatalog/jsonld/rdf/nq/impl/Tokenizer.java:152-192 | every `IRI_REF` token's value is an IRI text and is followed by `>` in the input |
| NQuadsProps.IriErrors | src/main/java/com/apicatalog/jsonld/rdf/nq/impl/Tokenizer.java:162-185 | a forbidden character inside an IRI is an error naming it; an unclosed IRI is an error at end of input |
| NQuadsProps.EscapedSlice | src/main/java/com/apicatalog/jsonld/rdf/nq/impl/Tokenizer.java:201-230 | whether a stretch of text is well escaped depends only on that stretch |
| NQuadsProps.StringEndSkips | src/main/java/com/apicatalog/jsonld/rdf/nq/impl/Tokenizer.java:201-230 | the string loop passes over well escaped text to the closing quote |
| NQuadsProps.StringEndText | src/main/java/com/apicatalog/jsonld/rdf/nq/impl/Tokenizer.java:201-230 | the text the string loop passes over is well escaped |
| NQuadsProps.StringRoundTrip | src/main/java/com/apicatalog/jsonld/rdf/nq/impl/Tokenizer.java:194-241 | `"v"` for a well escaped v gives `STRING_LITERAL_QUOTE` with value exactly v, escapes included, with the reader just past the closing quote |
| NQuadsProps.StringSound | src/main/java/com/apicatalog/jsonld/rdf/nq/impl/Tokenizer.java:194-241 | every string token's value is well escaped and is followed by a quote in the input |
| NQuadsProps.StringErrors | src/main/java/com/apicatalog/jsonld/rdf/nq/impl/Tokenizer.java:201-234 | a backslash before a character that is not an escape is an error naming that character; a bare line feed or carriage return is an error naming it; an unclosed string is an error at end of input |
| NQuadsProps.LangTagShape | src/main/java/com/apicatalog/jsonld/rdf/nq/impl/Tokenizer.java:243-293 | a language tag is one or more letters followed by letters, digits and dashes, and the reader stops on the character after it |
| NQuadsProps.LangTagAtEnd | src/main/java/com/apicatalog/jsonld/rdf/nq/impl/Tokenizer.java:250-284 | a tag that runs to the end of input is an error |
| NQuadsProps.LangTagTrailingDash | src/main/java/com/apicatalog/jsonld/rdf/nq/impl/Tokenizer.java:270-284 | `@en-` followed by a space is accepted as the tag `en-` |
| NQuadsProps.BlankNodeShape | src/main/java/com/apicatalog/jsonld/rdf/nq/impl/Tokenizer.java:295-340 | a label after `_:` starts with PN_CHARS_U or a digit and continues with PN_CHARS and dots, and the reader stops on the character after it |
| NQuadsProps.BlankNodeAtEnd | src/main/java/com/apicatalog/jsonld/rdf/nq/impl/Tokenizer.java:319-331 | a label that runs to the end of input is an error |
| NQuadsProps.BlankNodeSwallowsDot | src/main/java/com/apicatalog/jsonld/rdf/nq/impl/Tokenizer.java:317-331 | `_:b0.` followed by a space gives the label `b0.` |
| NQuadsProps.EndOfInputSticky | src/main/java/com/apicatalog/jsonld/rdf/nq/impl/Tokenizer.java:24-32 | once the lookahead is the end of input, `next()` returns it and changes nothing |
| NQuadsProps.EndOfInputReached | src/main/java/com/apicatalog/jsonld/rdf/nq/impl/Tokenizer.java:343-348 | at the end of the input with an empty lookahead, `hasNext()` is false |
| NQuadsProps.PeekIdempotent | src/main/java/com/apicatalog/jsonld/rdf/nq/impl/Tokenizer.java:34-37 | calling `token()` twice gives the same token and state |
| NQuadsProps.AcceptAdvancesIff | src/main/java/com/apicatalog/jsonld/rdf/nq/impl/Tokenizer.java:39-45 | `accept(t)` is true exactly when the current token has kind t, advances then, and otherwise leaves the state as `token()` does |
| NQuadsProps.FirstNextSkipsToken | src/main/java/com/apicatalog/jsonld/rdf/nq/impl/Tokenizer.java:24-32 | on a fresh tokenizer, `next()` returns the second token, not the first, unless the first is the end of input |
| NQuadsProps.FirstNextExample | src/main/java/com/apicatalog/jsonld/rdf/nq/impl/Tokenizer.java:24-32 | on `<a>.` the first `next()` returns `EOS` |
| NQuadsTokenizer.Reader.Read | src/main/java/com/apicatalog/jsonld/rdf/nq/impl/Tokenizer.java:50 | returns the character at the cursor, or -1 at the end, and moves the cursor by one unless at the end |
| NQuadsTokenizer.Reader.Mark | src/main/java/com/apicatalog/jsonld/rdf/nq/impl/Tokenizer.java:115 | the mark is set to the cursor |
| NQuadsTokenizer.Reader.Reset | src/main/java/com/apicatalog/jsonld/rdf/nq/impl/Tokenizer.java:123 | the cursor goes back to the mark |
| NQuadsTokenizer.Tokenizer.constructor | src/main/java/com/apicatalog/jsonld/rdf/nq/impl/Tokenizer.java:19-22 | the reader starts at the beginning of the input and the lookahead is empty |
| NQuadsTokenizer.Tokenizer.Next | src/main/java/com/apicatalog/jsonld/rdf/nq/impl/Tokenizer.java:24-32 | the token and the state after it are those of `NQuadsLexer.Next`, or the same error |
| NQuadsTokenizer.Tokenizer.Token | src/main/java/com/apicatalog/jsonld/rdf/nq/impl/Tokenizer.java:34-37 | agrees with `NQuadsLexer.Current` |
| NQuadsTokenizer.Tokenizer.Accept | src/main/java/com/apicatalog/jsonld/rdf/nq/impl/Tokenizer.java:39-45 | agrees with `NQuadsLexer.Accept` |
| NQuadsTokenizer.Tokenizer.HasNext | src/main/java/com/apicatalog/jsonld/rdf/nq/impl/Tokenizer.java:343-348 | agrees with `NQuadsLexer.HasNext` |
| NQuadsTokenizer.Tokenizer.DoRead | src/main/java/com/apicatalog/jsonld/rdf/nq/impl/Tokenizer.java:47-102 | the token, cursor and mark are those of `Lex` at the old cursor and mark |
| NQuadsTokenizer.Tokenizer.SkipWhitespaces | src/main/java/com/apicatalog/jsonld/rdf/nq/impl/Tokenizer.java:112-130 | the cursor and the mark end at the end of the whitespace run |
| NQuadsTokenizer.Tokenizer.SkipEol | src/main/java/com/apicatalog/jsonld/rdf/nq/impl/Tokenizer.java:132-150 | the cursor and the mark end at the end of the run of line ends |
| NQuadsTokenizer.Tokenizer.ReadIriRef | src/main/java/com/apicatalog/jsonld/rdf/nq/impl/Tokenizer.java:152-192 | agrees with `IriRefAt`: the text up to `>`, with `>` consumed, or the error for the first bad character |
| NQuadsTokenizer.Tokenizer.ReadString | src/main/java/com/apicatalog/jsonld/rdf/nq/impl/Tokenizer.java:194-241 | agrees with `StringAt`: the text up to the closing quote, escapes kept, or the error for the first bad character |
| NQuadsTokenizer.Tokenizer.ReadLangTag | src/main/java/com/apicatalog/jsonld/rdf/nq/impl/Tokenizer.java:243-293 | agrees with `LangTagAt` |
| NQuadsTokenizer.Tokenizer.ReadTagLetters | src/main/java/com/apicatalog/jsonld/rdf/nq/impl/Tokenizer.java:253-268 | the letter loop agrees with `TagLetters` |
| NQuadsTokenizer.Tokenizer.ReadSubtags | src/main/java/com/apicatalog/jsonld/rdf/nq/impl/Tokenizer.java:270-288 | the loop over letters, digits and dashes, with its delimiter flag, agrees with `TagRest` |
| NQuadsTokenizer.Tokenizer.ReadBlankNode | src/main/java/com/apicatalog/jsonld/rdf/nq/impl/Tokenizer.java:295-340 | agrees with `BlankNodeAt` |
| NQuadsTokenizer.Tokenizer.ReadLabelRest | src/main/java/com/apicatalog/jsonld/rdf/nq/impl/Tokenizer.java:312-335 | the loop over PN_CHARS and dots, with its delimiter flag, agrees with `LabelRest` |
| ActiveContexts.ActiveContext.constructor | src/main/java/com/apicatalog/jsonld/context/ActiveContext.java:41-46 | a fresh empty table, the given base IRIs and mode, no previous context, so no protected term |
| ActiveContexts.ActiveContext.WithPrevious | src/main/java/com/apicatalog/jsonld/context/ActiveContext.java:48-54 | a fresh empty table that remembers the previous context; `hasPreviousContext` holds exactly when one was given |
| ActiveContexts.ActiveContext.Copy | src/main/java/com/apicatalog/jsonld/context/ActiveContext.java:57-67 | every field is copied, and the copy holds the very same table object as the origin |
| ActiveContexts.ActiveContext.ContainsTerm | src/main/java/com/apicatalog/jsonld/context/ActiveContext.java:69-71 | true exactly when `getTerm` finds a definition |
| ActiveContexts.ActiveContext.ContainsProtectedTerm | src/main/java/com/apicatalog/jsonld/context/ActiveContext.java:73-75 | the check over the table's values holds exactly when some term maps to a protected definition |
| ActiveContexts.ActiveContext.GetTerm | src/main/java/com/apicatalog/jsonld/context/ActiveContext.java:92-94 | a definition exactly when the term is in the table, and it is the stored one |
| ActiveContexts.ActiveContext.RemoveTerm | src/main/java/com/apicatalog/jsonld/context/ActiveContext.java:77-86 | returns the old definition or none; the term is gone, every other term keeps its definition, and a protected term remains exactly when another term had one |
| ActiveContexts.ActiveContext.SetTerm | src/main/java/com/apicatalog/jsonld/context/ActiveContext.java:88-90 | the term maps to the new definition, every other term keeps its own, and a protected term exists exactly when the new definition or another term is protected |
| ActiveContexts.ActiveContext.InMode | src/main/java/com/apicatalog/jsonld/context/ActiveContext.java:112-114 | true exactly when a processing mode is set and it is the given version |
| ActiveContexts.ProtectedValues | src/main/java/com/apicatalog/jsonld/context/ActiveContext.java:73-75 | some stored value is protected exactly when some key maps to a protected definition |
| ActiveContexts.SetThroughCopy | src/main/java/com/apicatalog/jsonld/context/ActiveContext.java:57-58 | a term set through a copy is seen through the origin, and no other term of the origin changes |
| ActiveContexts.RemoveThroughCopy | src/main/java/com/apicatalog/jsonld/context/ActiveContext.java:57-58 | a term removed through a copy is gone from the origin, and no other term of the origin changes |
| ActiveContexts.FreshTableIsSeparate | src/main/java/com/apicatalog/jsonld/context/ActiveContext.java:41-46 | a context from the first constructor has a table of its own, which a term set in another context does not reach |

## Left out

- I/O is not modelled. The reader is a sequence of code units with a cursor and a mark. `IOException` and its wrapping into `NQuadsReaderError` are left out, and so is the 8192-unit buffer. The `mark(1)` read-ahead limit is never exceeded by the code.
- Error messages and their expected-character lists are left out. An error keeps only the offending code unit, or -1 at the end of input (`Unexpected`).
- `IllegalStateException` after `unexpected` (Tokenizer.java line 101) is unreachable, because `unexpected` always throws. It has no counterpart in the model.
- PN_CHARS_BASE characters above U+FFFF cannot occur, because one code unit cannot hold them. Surrogate pairs are treated as the `Terminal` predicates treat single units. `Terminal` is not part of this model; its character classes are written out from the N-Quads grammar.
- `Flattening.NoneMatch`: the `hashCode` fast path and `ModifiableJsonArray` reuse are performance devices with no observable effect. The model compares values structurally.
- `Flattening.OptimizedAddToSet`: the switch between a list and a hash set is left out. The result is an ordered-set insertion. The merged `@type` keeps first-seen order, while Java's `Set.of` iteration order depends on the JVM. The properties proved are membership and absence of duplicates.
- `NodeMapRefs.RefComplete`: the values of `@type` and `@index` are left out of referential completeness. They are copied from the input as given, so a `{"@id": x}` there need not name a record. A reverse property named `@index` would store its references there; such input is not valid expanded JSON-LD.
- `FlatteningProps.ReverseChild` states the exact result only for a bare node `{"@id": c}`. For any node object, `FlatteningProps.ReverseNodeLinked` and `FlatteningProps.ReverseLinked` state that the reference is held afterwards, not how many times.
- JSON objects are member sequences, so object equality is order-sensitive here. Java's `JsonObject` equality ignores member order.
- `Utils.Index` sorts keys as `String.compareTo` does, by UTF-16 code units. A Dafny `char` is a code point, so `Utils.UnitRank` places each code point where its first UTF-16 unit falls, and characters U+E000 to U+FFFF come after every character above U+FFFF. `Utils` is not part of this model.
- A `NodeMap` access with a null active subject or property, which happens only on malformed calls, is the error `MissingKey`. A Java cast or `asJsonArray()`/`asJsonObject()` on the wrong shape is the error `ClassCast`. After any error, the partially updated node map and list are not specified.
- The tokenizer after a `LexError` is not specified: the contracts say which error is returned, but not where the cursor and the mark are left.
- `ActiveContext.setTerm` accepts a null definition in Java. `containsTerm` is then true, `getTerm` gives null and `containsProtectedTerm` throws a `NullPointerException`. Here a definition is a value and is never null, so none of this is modelled.
- `JsonUtils.toStream` and `NodeObject.isNodeObject` are not part of this model. They are taken to mean:
  - `toStream` gives no items for null, the items for an array, and the value itself otherwise;
  - a node object is a map without `@value`, `@list` and `@set`.
- `NodeMap` is not part of this model. It is modelled as a map from graph to id to property to value, with blank labels `_:b` followed by a decimal counter.
- `TermDefinition`, `Version` and `DirectionType` are not part of this model. Each is a minimal datatype; a term definition carries only what the active context reads.
- In `ActiveContext`, the `inverseContext` field and the plain getters (lines 96-110 and 120-122) are left out. The getters only return fields. URIs are strings.
- `RemoteDocument`, `DefaultRdfProvider`, `RdfReader` and `DefaultObject` are outside the modelled core.
