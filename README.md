# AI mind-map generator: verified model of the page engine and the model-reply handlers

The system turns a topic into a mind map. A browser page asks a server for a tree of
`{ name | topic, children }` objects, draws it as a two-sided tree around the topic, and lets the
user edit it:

- select a node to get a context menu;
- rename a node by double-clicking it;
- add a child;
- remove a subtree;
- "explore" a node, which asks the server for more sub-points and appends them;
- export the picture as a PNG.

Three server implementations sit behind the page: a Cloudflare worker, and two Netlify functions
(`generate` and `expand`). Each one validates the request, calls a language model, and recovers
JSON from the model's free-form reply.

This project models those parts. The modules are:

- `Basics`: string helpers the code relies on (`trim`, `includes`, splitting on white space).
- `Json`: parsed JSON values. Object members keep their insertion order, and the last duplicate
  wins. `JSON.parse` is a parameter, `parse: string -> Option<Json>`.
- `Http`: responses and the request-field checks the three server implementations share.
- `MindTree`: the page's mutable tree as a heap. A heap is a map from object references to
  `Obj(name, topic, children)`. JavaScript object identity is reference identity. The module
  covers `JSON.parse` allocation, `d3.hierarchy` (`Hier`), `descendants()` (`Flat`), and the
  in-place child `push`/`splice`, rename and label rules.
- `Paths`: reachability along child positions. It proves that a render draws exactly the
  objects reachable from the root, and that growing the heap never moves an object that was
  already reachable.
- `Layout`: the two-sided layout. The first `ceil(n/2)` first-level children go left and are
  mirrored; the rest go right. Each half is laid out under a temporary root, and the root is
  pinned at the origin. The module builds the link list from the three `forEach` loops.
- `Present`: branch colours, font sizes, node rectangles, the viewport, and the first fit of
  the view to the drawing.
- `Wrap`: the greedy word-wrap loop for node labels.
- `Export`: the export gate, the bounding frame of the drawn rectangles, and the file name.
- `Session`: the page's state as a record, with one function per event handler and per server
  reply. The state includes the heap, the shown map, the selection, the editor, the menu and
  the drawing with its render generation.
- `Page`: the page as a class whose fields are that state. Each handler is a method that
  updates the fields in place and is proved to produce `Session`'s function of the old state,
  while preserving the page invariant `Valid()`.
- `Recovery`: fence stripping, the first-`{`-to-last-`}` block pattern, and the `name` filter
  for expansions.
- `Worker`: the Cloudflare worker's `fetch`, `handleGenerate` and `handleExpand`.
- `NetlifyGenerate`, `NetlifyExpand`: the two Netlify functions. Lemmas compare them with the
  worker.

The language model, text measurement, d3's tidy-tree vertical placement and the screen
geometry are parameters of the functions that use them.

Some behaviour of the code that is easy to miss:

- After an exploration, the `finally` block re-enables only Add and Explore
  (`public/script.js:429`). Remove stays disabled until the next selection.
  `Session.ExploreFinished` states this.
- For a root with a single first-level child, `Math.ceil(1/2)` puts that child on the left
  (`Layout.Mid`).
- Adding a child is meant to open the editor on the new node. As written, the code never
  opens it; see "## Findings".

## Model

| member | source | states |
|---|---|---|
| Basics.Trim | gemini-mindmap-worker/src/index.ts:106 | The trimmed text is empty exactly when the input is all white space. A non-empty result starts and ends with non-space. An already-trimmed input is returned unchanged. |
| Basics.TrimIsSlice | gemini-mindmap-worker/src/index.ts:106 | `trim` returns a contiguous slice of its input. |
| Basics.TrimDropsSpace | gemini-mindmap-worker/src/index.ts:106 | Everything `trim` removes, on either side, is white space. |
| Basics.Contains | gemini-mindmap-worker/src/index.ts:209 | `includes` is true exactly when the substring occurs at some index. |
| Basics.SplitWs | public/script.js:301 | Splitting on white-space runs gives at least one piece, and no piece holds white space. |
| Json.FieldIndex | gemini-mindmap-worker/src/index.ts:101 | A member lookup finds the last member with that key, or reports that no member has it. |
| Json.Put | gemini-mindmap-worker/src/index.ts:199 | After assigning a key, the key reads back the new value and every other key reads as before. |
| Json.SameKeysSameIndex | gemini-mindmap-worker/src/index.ts:199 | Objects with the same keys in the same order resolve a key to the same position. |
| Http.BodyOrEmpty | netlify/functions/generate.js:46 | An absent or empty body becomes a non-empty default. A non-empty body is kept. |
| Http.StringArg | gemini-mindmap-worker/src/index.ts:106-111 | A required field is accepted exactly when it is a string that is not blank. The accepted value is that string. |
| Http.OrEmpty | gemini-mindmap-worker/src/index.ts:227-228 | A context field is its value when truthy, and otherwise the empty string. |
| Http.ExpandArgs | gemini-mindmap-worker/src/index.ts:226-235 | `/expand` accepts a body exactly when `nodeName` is a non-blank string. Absent contexts become "". |
| MindTree.Alloc | public/script.js:452 | `JSON.parse` allocates fresh objects only at and above the next reference. It keeps the heap ordered and every existing object unchanged. The new object mirrors the parsed value at every depth: string name and topic, a children list exactly for an array `children`, and child `k` made of item `k`. |
| MindTree.AllocItems | public/script.js:452 | The items of a parsed array become fresh objects, one each and in order, each mirroring its item. |
| MindTree.Branch | public/script.js:452 | An object with an array `children` lists the objects made of its items, in order. |
| MindTree.MirrorsFrame | public/script.js:452 | Whether an object mirrors a parsed value depends only on the objects from it on, so later allocations and edits of lower objects keep it. |
| MindTree.Hier | public/script.js:471 | The hierarchy node of an object has that object's children, in order. |
| MindTree.Flat | public/script.js:472 | The descendant list starts at the node itself. Every later entry lies strictly below it, at an extension of its path, and has a parent. |
| MindTree.FlatKids | public/script.js:472 | The descendants of the children lie below the parent's path. Direct children have that parent. |
| MindTree.Push | public/script.js:385-386 | `push` on the children (created when absent) appends exactly the new references and keeps name and topic. |
| MindTree.AppendKids | public/script.js:386 | Appending to one object's children changes no other object and allocates nothing. |
| MindTree.AppendKeepsOrder | public/script.js:386 | Appending allocated, larger references keeps the heap ordered. |
| MindTree.IndexOf | public/script.js:402 | `findIndex` by identity gives the first position holding the reference, or nothing exactly when the reference is absent. |
| MindTree.Without | public/script.js:403 | `splice(i, 1)` removes exactly position `i` and keeps the others in order. The removed element is the only one that leaves the multiset. |
| MindTree.RemoveKid | public/script.js:403 | Removing a child changes only that parent's children list. |
| MindTree.RemoveKeepsOrder | public/script.js:403 | Removing a child keeps the heap ordered. |
| MindTree.OldName | public/script.js:370 | The old name is the name when it is non-empty, and otherwise the topic. |
| MindTree.Label | public/script.js:630 | The drawn label is never empty, and it is the old name whenever that is non-empty. |
| MindTree.EditorText | public/script.js:362 | The editor opens with the drawn label, or empty only when the label is the "Root" fallback. |
| MindTree.Rename | public/script.js:369-373 | A rename happens exactly when the trimmed input is non-empty and differs from the old name. It writes the trimmed text as the name and keeps topic and children. |
| MindTree.RenameShows | public/script.js:373-374 | After a rename, the node shows the trimmed input and the editor would open with it. |
| MindTree.RenameIdempotent | public/script.js:372 | Committing the same input again writes nothing. |
| MindTree.UnchangedEditorWritesNothing | public/script.js:362-372 | Committing an untouched editor of a named node writes nothing. |
| MindTree.DefaultKids | public/script.js:459 | Defaulting `children` to `[]` creates the list and keeps everything else. |
| MindTree.AllocDefaulted | public/script.js:452-459 | The loaded root is the parsed root with its children defaulted, allocated fresh, and the objects below it mirror the body's children at every depth. |
| MindTree.AllocAll | public/script.js:426 | Each expansion item becomes a fresh object with its children defaulted and its name and topic from the item, one per item, and the objects below it mirror the item's children. |
| Layout.Mid | public/script.js:489 | `ceil(n/2)`: the left half holds half the children rounded up, and at least one child whenever there is one. |
| Layout.Horizontal | public/script.js:528-536 | Left-side nodes lie at least one level left of the root, right-side nodes at least one level right. |
| Layout.Place | public/script.js:515-539 | The position-writing loops produce the layout map: the root pinned, then the left half written, then the right half. |
| Layout.PlaceHalf | public/script.js:524-539 | One `forEach` over a temporary layout writes its nodes' positions in order. |
| Layout.ApplyAt | public/script.js:524-539 | After the writes, each node of the half holds its own position, and no other entry is added, removed or changed. |
| Layout.HalvesCover | public/script.js:489-513 | The root followed by the left half and the right half is exactly the descendant list. Each half matches its temporary hierarchy node for node. |
| Layout.HalvesApart | public/script.js:489-513 | When every object is drawn once, the two temporary layouts and the root share no object. |
| Layout.RootPinned | public/script.js:519-521 | The root ends at the origin on the centre side. |
| Layout.RootPlaced | public/script.js:519-521 | The root always has a position. |
| Layout.Placement | public/script.js:489-539 | Every non-root drawn node gets the position its temporary layout assigns, on the side of its first-level ancestor. |
| Layout.RootEdges | public/script.js:544-546 | The first loop adds one link from the root to each first-level child, in order. |
| Layout.HalfEdges | public/script.js:548-558 | The half loops keep exactly the links whose parent is drawn. |
| Layout.Edges | public/script.js:542-558 | `allLinks` is the root links, then the left-half links, then the right-half links. |
| Layout.LinksFrom | public/script.js:549-551 | Every kept link goes from a node's parent to that node. |
| Layout.EdgesOnce | public/script.js:496-558 | Every non-root drawn node is the target of exactly one link, and nothing else is a target. |
| Layout.EdgesAreLinks | public/script.js:542-558 | Every link joins a drawn node to its parent. |
| Present.ColourMap | public/script.js:482-486 | The colour loop yields the branch-colour map. |
| Present.ColourOfKid | public/script.js:485 | First-level child `k` gets palette colour `k mod 12` of the twelve-colour palette. |
| Present.ColourKeys | public/script.js:483-486 | The map colours exactly the first-level children. |
| Present.Fill | public/script.js:606-619 | The `fill` loop walks up to the depth-1 ancestor and gives its colour. |
| Present.BranchColour | public/script.js:606-619 | A non-root node is filled with the palette colour of the branch it descends from. |
| Present.FillInherited | public/script.js:610-618 | A node below depth 1 has its parent's fill. |
| Present.FontSize | public/script.js:628 | Font sizes stay between 10 and 12 px. |
| Present.FontShrinks | public/script.js:628-629 | Deeper nodes never get a larger font, and only the root is bold. |
| Present.NodeRect | public/script.js:634-640 | A box is the fixed width and at least three paddings high (20 plus the paddings without a text), centred on its node. |
| Present.Viewport | public/script.js:270-271 | A viewport side is positive. It is the measured size when non-zero, and the fallback otherwise. |
| Present.ExtentOf | public/script.js:563-569 | The extent is absent exactly for no positions. Otherwise it encloses every position and each bound is reached. |
| Present.Bounds | public/script.js:563-569 | The min/max loop computes that extent. |
| Present.Min3 | public/script.js:575 | `Math.min` of three is a lower bound that is one of them. |
| Present.FitCentres | public/script.js:570-578 | The first fit scales by at most 1 and maps the padded drawing into the viewport, centred on both axes. |
| Present.FitShows | public/script.js:570-578 | After the first fit, every position, with its half-box margin, lies inside the viewport. |
| Present.FitTight | public/script.js:573-575 | The fit's scale is the largest allowed: 1, or the drawing spans the viewport on one axis. |
| Paths.HierWalk | public/script.js:471 | Positions in the hierarchy are walks in the heap. |
| Paths.DrawnInHeap | public/script.js:471-472 | Every drawn node's object and parent object are allocated. |
| Paths.DrawnWalks | public/script.js:471-472 | Every drawn node's path leads from the root to its object. |
| Paths.DrawnReachable | public/script.js:471-472 | Every object reachable from the root is drawn. |
| Paths.WalkExtends | public/script.js:386 | Appending children and allocating objects never moves an already reachable object. |
| Paths.Replace | public/script.js:373 | Writing a renamed object keeps the heap ordered and changes only that object. |
| Paths.AddChild | public/script.js:384-386 | The new childless object is allocated and appended to its parent's children, and nothing else changes. |
| Paths.AddedDrawn | public/script.js:386-387 | The added object is drawn by the next render when its parent is reachable. |
| Paths.Expand | public/script.js:426 | The expansion allocates one fresh object per item and appends them to the node's children. The node then has a children list, and each new object has one of its own, with the item's name and topic and the objects below it made of the item's children. Nothing else changes. |
| Export.ExportGate | public/script.js:696-716 | Export goes ahead exactly when an SVG and a map exist and nodes are drawn. Otherwise it gives the matching alert. |
| Export.ExportFrame | public/script.js:747-787 | The frame exists exactly when some drawn node has a rectangle. It keeps a 50-unit margin around every rectangle, and each side touches one. |
| Export.FrameHasMargins | public/script.js:783-791 | The exported image is at least two margins wide and high. |
| Export.FileName | public/script.js:833-840 | The download name ends in `.png`. |
| Export.StemIsWord | public/script.js:833 | The file stem is never empty and holds no white space. |
| Export.StemIdempotent | public/script.js:833 | Turning a stem into a stem again gives it back. |
| Worker.Fetch | gemini-mindmap-worker/src/index.ts:19-89 | Every response is 200, 400, 404, 405 or 500. `Allow: POST` is sent exactly with 405. A body is sent exactly when the method is not OPTIONS. |
| Worker.ModelError | gemini-mindmap-worker/src/index.ts:209 | The error message always names the model. A message that already names it is kept; otherwise the prefix is added. |
| Worker.GenerateArgs | gemini-mindmap-worker/src/index.ts:101-111 | `/generate` accepts exactly a non-blank string topic. `includeDetails` is off only when the body sets it to `false`. |
| Worker.HandleGenerate | gemini-mindmap-worker/src/index.ts:93-215 | The answer is 200, 400 or 500 with a body. It is 400 exactly when the arguments are rejected. |
| Worker.GenerateOutcome | gemini-mindmap-worker/src/index.ts:167-199 | A served value is an object or an array. A served object carries `_modelUsed`. |
| Worker.Tagged | gemini-mindmap-worker/src/index.ts:199 | Tagging keeps objects and arrays, and it sets `_modelUsed` on objects. |
| Worker.TagsRecoveredObject | gemini-mindmap-worker/src/index.ts:199-202 | A recovered object is served with `_modelUsed` set and every other member kept. |
| Worker.OutcomeOfText | gemini-mindmap-worker/src/index.ts:178-199 | A text reply is the tagged result of the object recovery. |
| Worker.HandleExpand | gemini-mindmap-worker/src/index.ts:218-332 | The answer is 400 exactly when the arguments are rejected. A 200 answer carries `_modelUsed` and a `nodes` array whose every item has a string name. |
| Worker.ExpandBody | gemini-mindmap-worker/src/index.ts:314-317 | The success body holds the items under `nodes` and the model under `_modelUsed`. |
| Worker.RecoverArray | gemini-mindmap-worker/src/index.ts:271-312 | The recovered items all have a string name. The only failure is "not a valid array". |
| Worker.RecoverArrayIsRetry | gemini-mindmap-worker/src/index.ts:271-312 | The first attempt adds nothing: recovery equals the retry on the raw reply. |
| Worker.RetrySubsumes | gemini-mindmap-worker/src/index.ts:297-307 | Falling back to the retry after any first attempt gives the retry's result. |
| Worker.FirstAttemptIsBlockParse | gemini-mindmap-worker/src/index.ts:273-285 | The first attempt parses the bracket block of the cleaned text, whether or not the text was already bracketed. |
| Worker.MethodGateFirst | gemini-mindmap-worker/src/index.ts:24-38 | Any method other than POST is answered (200 for OPTIONS, else 405) independently of key, body and model. |
| Worker.MissingKeyFirst | gemini-mindmap-worker/src/index.ts:41-48 | A missing key gives the same 500 for every path and body. |
| Worker.BodyBeforeRoute | gemini-mindmap-worker/src/index.ts:63-82 | Malformed JSON is 400 on any path. Well-formed JSON on an unknown path is 404. |
| Worker.FailuresNameModel | gemini-mindmap-worker/src/index.ts:207-213 | For a POST to `/generate` or `/expand` with an API key set and a body that parses to a non-null value, every 500 carries an error message naming the model. The missing-key 500 and the catch-all "Internal Server Error" name none. |
| Worker.GenerateFailureNamesModel | gemini-mindmap-worker/src/index.ts:209 | Every 500 of `/generate` names the model. |
| Worker.ExpandFailureNamesModel | gemini-mindmap-worker/src/index.ts:326 | Every 500 of `/expand` names the model. |
| Recovery.StripFences | gemini-mindmap-worker/src/index.ts:180 | Text without fences is unchanged. A trailing fence alone is cut. After an opening fence, the kept text starts with non-space. |
| Recovery.UnwrapFenced | gemini-mindmap-worker/src/index.ts:180 | A "```json" fence with white space around its body unwraps to the body. |
| Recovery.InnerFenceKept | gemini-mindmap-worker/src/index.ts:273 | A fence in the middle of the reply is never removed. |
| Recovery.StripFencesIsSlice | gemini-mindmap-worker/src/index.ts:180 | Fence removal keeps a contiguous slice of the text. |
| Recovery.StripFencesDropsFiller | gemini-mindmap-worker/src/index.ts:180 | Fence removal drops only white space and fence characters. |
| Recovery.Block | gemini-mindmap-worker/src/index.ts:185 | A matched block starts with the opening and ends with the closing bracket. |
| Recovery.BlockFound | gemini-mindmap-worker/src/index.ts:185 | The pattern matches exactly when some opening bracket precedes some closing one. |
| Recovery.BlockAtUnique | gemini-mindmap-worker/src/index.ts:185 | The match runs from the first opening to the last closing bracket, and no other span qualifies. |
| Recovery.BracketedIsBlock | gemini-mindmap-worker/src/index.ts:274-284 | An already bracketed text is its own block. |
| Recovery.ChatterBlock | gemini-mindmap-worker/src/index.ts:185 | Bracket-free text around a single block leaves the match unchanged. |
| Recovery.KeepNamed | gemini-mindmap-worker/src/index.ts:291 | The filter keeps exactly the items with a string `name`, and keeps everything when all have one. |
| Recovery.KeepNamedIdempotent | gemini-mindmap-worker/src/index.ts:291 | Filtering twice is filtering once. |
| Recovery.RecoverObject | gemini-mindmap-worker/src/index.ts:178-197 | The cleaned text is parsed first. Otherwise the `{...}` block is parsed. Otherwise the two error messages apply. |
| Recovery.FencedReplyRecovered | gemini-mindmap-worker/src/index.ts:180-181 | A fenced reply whose body parses is recovered at the first stage. |
| Recovery.ChatterAroundObject | gemini-mindmap-worker/src/index.ts:185-188 | An object surrounded by chatter is recovered by the block stage. |
| Recovery.NamedArray | gemini-mindmap-worker/src/index.ts:287-291 | Only a parsed array yields items, and all of them have a string name. |
| Recovery.ArrayRetry | gemini-mindmap-worker/src/index.ts:297-311 | The retry gives `[]` when there is no `[...]` block, and fails exactly when the block does not parse as an array. |
| Recovery.CleanKeepsBlock | gemini-mindmap-worker/src/index.ts:273-276 | Cleaning does not move the bracket block. |
| Recovery.StripKeepsBlock | gemini-mindmap-worker/src/index.ts:273 | Fence removal does not move the bracket block. |
| Recovery.TrimKeepsBlock | gemini-mindmap-worker/src/index.ts:273 | `trim` does not move the bracket block. |
| Wrap.Words | public/script.js:307 | The loop takes the pieces up to the first empty one. |
| Wrap.WrapLabel | public/script.js:298-318 | The lines hold the label's words in order, never split. A line is closed only when the next word makes it too wide. No line of several words, nor any start of it, is too wide. The shift centres the lines. |
| Wrap.Take | public/script.js:308-313 | One step adds the word and keeps the lines well broken. |
| Wrap.Close | public/script.js:309-312 | Closing a line for a word that does not fit keeps the lines well broken. |
| Wrap.Extend | public/script.js:308 | Adding a word that fits keeps the lines well broken. |
| Wrap.LeadingSpaceHidesText | public/script.js:301-307 | A label that starts with white space draws no word. |
| Wrap.TrimmedKeepsWords | public/script.js:301-307 | A trimmed non-empty label loses none of its words. |
| NetlifyGenerate.Handler | netlify/functions/generate.js:5-210 | Responses are 200, 400, 405 or 500, with `Allow` exactly on 405 and no body exactly for OPTIONS. It is 400 exactly for a POST with a key whose topic is rejected. |
| NetlifyGenerate.TopicOf | netlify/functions/generate.js:43-62 | Unparsable or null bodies are invalid JSON. An accepted topic is a non-blank string of the parsed body. |
| NetlifyGenerate.Outcome | netlify/functions/generate.js:155-186 | No reply and a thrown error give their messages. A text reply gives the object recovery. |
| NetlifyGenerate.Answer | netlify/functions/generate.js:188-209 | The answer is 200 with the recovered value exactly when recovery succeeds, and otherwise 500 with the prefixed message. |
| NetlifyGenerate.AgreesWithWorkerOnObjects | netlify/functions/generate.js:196 | For a recovered object, the worker serves the same object plus `_modelUsed`. |
| NetlifyGenerate.ServesRecovered | netlify/functions/generate.js:190-197 | A text reply is served as recovered. |
| NetlifyGenerate.PrimitiveReplyDiverges | netlify/functions/generate.js:196 | A reply that parses to a primitive is served here, while the worker answers 500. |
| NetlifyGenerate.MethodGateFirst | netlify/functions/generate.js:7-29 | Non-POST answers do not depend on body, key or model. |
| NetlifyGenerate.AbsentBodyLacksTopic | netlify/functions/generate.js:46-62 | An absent body is answered with "topic is required". |
| NetlifyExpand.Handler | netlify/functions/expand.js:5-151 | Responses are 200, 400, 405 or 500, with `Allow` exactly on 405 and no body exactly for OPTIONS. It is 400 exactly for a POST with a key whose arguments are rejected. |
| NetlifyExpand.ArgsOf | netlify/functions/expand.js:39-59 | Unparsable or null bodies are invalid JSON. Accepted arguments are the worker's `ExpandArgs` of the parsed body. |
| NetlifyExpand.FirstAttempt | netlify/functions/expand.js:102-110 | The first attempt succeeds only on a cleaned text that is bracketed and parses as an array, and its items have names. |
| NetlifyExpand.RecoverArray | netlify/functions/expand.js:100-130 | The recovered items all have a string name. The only failure is "not a valid array". |
| NetlifyExpand.RecoverArrayIsRetry | netlify/functions/expand.js:101-130 | Recovery equals the retry on the raw reply. |
| NetlifyExpand.AgreesWithWorker | netlify/functions/expand.js:100-130 | The Netlify recovery equals the worker's. |
| NetlifyExpand.Outcome | netlify/functions/expand.js:88-130 | No reply and a thrown error give their messages. A text reply gives the array recovery. |
| NetlifyExpand.Answer | netlify/functions/expand.js:132-149 | The answer is 200 with the bare array of named items exactly when recovery succeeds, and otherwise 500 with the prefixed message. |
| NetlifyExpand.NoBlockGivesEmptyList | netlify/functions/expand.js:126-129 | A reply with no bracket block is answered 200 with `[]`. |
| Session.Initial | public/script.js:276-280 | The loaded page is in the sound state. |
| Session.Draw | public/script.js:466-683 | A render draws the descendant list of the shown root, root first. Every drawn node walks to its object. Branches are drawn exactly when the root has children. |
| Session.Halted | public/script.js:469-471 | A render that throws in `d3.hierarchy` leaves nothing drawn and the menu and editor hidden, and keeps the heap, the map and the selection. |
| Session.Rendered | public/script.js:466-689 | A render keeps the heap, the map and the edit binding, hides the menu, opens a new render generation and leaves the state sound. |
| Session.RenderedDraws | public/script.js:471-472 | A render of a shown map draws its hierarchy's nodes. |
| Session.RenderTwice | public/script.js:466-582 | Rendering again without a change gives the same picture and view. |
| Session.FirstFitShowsAll | public/script.js:561-582 | After the first render of a map, every placed node lies inside the viewport. |
| Session.MenuPlace | public/script.js:334-338 | The menu is placed right of the node when it fits, flipped left or up when that fits, and never at negative coordinates: a negative left becomes the margin and a negative top becomes 0. |
| Session.Selected | public/script.js:321-341 | A click keeps the state sound. |
| Session.SelectToggles | public/script.js:325 | Clicking a selected node again deselects it and closes the menu. |
| Session.RootNotRemovable | public/script.js:340 | The menu over the root always has Remove disabled. |
| Session.Opened | public/script.js:344-364 | Opening the editor keeps the state sound. |
| Session.DoubleClicked | public/script.js:598 | A double click keeps the state sound. |
| Session.Committed | public/script.js:367-379 | A commit keeps the state sound. |
| Session.Written | public/script.js:371-374 | Writing a renamed object and redrawing keeps the state sound. |
| Session.CommitRenames | public/script.js:369-374 | A commit renames exactly the edited object, which shows the trimmed text. It changes nothing else, redraws, and closes the editor. |
| Session.CommitUnchanged | public/script.js:375-378 | A commit that renames nothing only closes the editor. |
| Session.CommitOnce | public/script.js:368 | A second commit does nothing. |
| Session.KeyDown | public/script.js:874 | Editor keys keep the state sound. |
| Session.EscapeKeepsMap | public/script.js:874 | Escape closes the editor without changing the map or the drawing. |
| Session.Blurred | public/script.js:875 | Losing focus keeps the state sound. |
| Session.BackgroundClicked | public/script.js:687 | A background click keeps the state sound. |
| Session.Zoomed | public/script.js:290-294 | A zoom keeps the state sound. |
| Session.Deselected | public/script.js:395 | Deselection keeps the state sound. |
| Session.FindDrawn | public/script.js:388-391 | The lookup finds a drawn node of the object, or nothing exactly when none is drawn. |
| Session.ElementOf | public/script.js:391 | An element is found exactly when some drawn element is the target. It is the first such element. |
| Session.WithNewChild | public/script.js:384-386 | Adding a child appends exactly one fresh "New Node" object to the selected object and changes nothing else. |
| Session.AddedAsWritten | public/script.js:382-396 | `addChildNode` as written keeps the state sound. |
| Session.LookUpAsWritten | public/script.js:388-394 | The lookup as written keeps the state sound. |
| Session.NeverBound | public/script.js:388-391 | No drawn element is bound to a node of a hierarchy built after that render. |
| Session.AddNeverEdits | public/script.js:388-392 | As written, Add never opens the editor and leaves the edit binding as it was. |
| Session.Added | public/script.js:382-396 | Corrected `addChildNode` keeps the state sound. |
| Session.LookUp | public/script.js:388-394 | The corrected lookup keeps the state sound. |
| Session.AddEdits | public/script.js:382-396 | Corrected, Add appends one fresh child, draws it, binds the editor to it showing "New Node" when the screen geometry is known, and clears the selection. |
| Session.Removed | public/script.js:399-405 | Remove keeps the state sound. |
| Session.RemoveDropsOne | public/script.js:401-403 | Removing a listed child takes exactly one copy of it from its parent, changes no other object, raises no alert, and redraws. |
| Session.RemovedNotDrawnThere | public/script.js:403 | A child listed once is gone from its parent's children. |
| Session.ExploreFields | public/script.js:410-417 | The expansion request carries the node's old name, the parent context and the root's name under their own keys. Each is left out when undefined. |
| Session.ExploreAccepted | public/script.js:410-417 | The server accepts the request exactly when the node's old name is not blank, and reads that name and the root's. |
| Session.GenerateRequest | public/script.js:449 | The generation request carries the topic and the details flag. |
| Session.GenerateAccepted | public/script.js:449 | The server reads back the trimmed topic and the flag. |
| Session.Decimal | public/script.js:418 | A number is written as a non-empty string of digits. |
| Session.DecimalRoundTrip | public/script.js:418 | The digits read back as the number. |
| Session.ErrorMessage | public/script.js:418 | The error message is the null-read error for a null body, `String` of a truthy `error` member (a non-empty string as it is), and otherwise the status message. |
| Session.NumberString | public/script.js:418 | A whole number is written as its decimal digits, after a `-` when negative, and those digits read back as the number. |
| Session.ErrorOfNonString | public/script.js:418 | A truthy `error` that is no string becomes the message as `String` writes it: `5` gives "5", `true` gives "true", an object "[object Object]", an array its items joined by commas. |
| Session.Parsed | public/script.js:420-421 | Reading a field of a null body throws; any other received body is kept. |
| Session.ReplyBody | public/script.js:418-420 | Only a received reply has a body. |
| Session.ExploreClicked | public/script.js:408-417 | Explore keeps the state sound. |
| Session.ExploreLocks | public/script.js:413 | While an expansion is in flight, nothing can start a second one, and Add and Explore are disabled. |
| Session.UpToNull | public/script.js:426 | The push loop stops at the first null item. |
| Session.Expanded | public/script.js:426 | The expansion appends one fresh object per item to the selected object, which then has a children list; each new object has its own list and the item's name and topic. |
| Session.ExploreFinished | public/script.js:429 | The `finally` keeps the state sound. |
| Session.ExploreDone | public/script.js:416-429 | The expansion reply keeps the state sound. |
| Session.Explored | public/script.js:426-427 | Handling `data.nodes` keeps the state sound. Its branches are stated by `Session.ExploreAppends` and `Session.ExploreEmptyKeepsMap`. |
| Session.ExploreEmptyKeepsMap | public/script.js:426-429 | A reply whose `nodes` is missing or empty leaves the map as it was, gives the no-sub-points alert and re-enables Add and Explore. |
| Session.ItemsExplored | public/script.js:426-428 | Pushing the items keeps the state sound. The render throws only when the selected object belongs to the shown map. |
| Session.ExploreAppends | public/script.js:426-429 | For any reply body whose `nodes` is a non-empty array with no `null` at any depth, the expansion appends one object per item, made of the item, redraws, re-enables Add and Explore, keeps Remove as it was, and clears the selection. |
| Session.ExploreNullHalts | public/script.js:426-429 | When the selection is on the shown map, items of which one holds `null` in a `children` array are all appended, then the render throws: nothing is drawn, the failure alert names the null read, and the buttons come back. |
| Session.ExploreElsewhere | public/script.js:426-429 | When the selection is on a map no longer shown, the items are appended to its object whatever they hold, the shown map is drawn again without an alert, the buttons come back and the selection is cleared. |
| Session.ExploreFailureKeepsMap | public/script.js:428-429 | A failed exchange leaves the map as it was and raises the failure alert. |
| Session.GenerateClicked | public/script.js:693 | Search keeps the state sound. |
| Session.GenerateSends | public/script.js:693 | A request is sent exactly when Search is enabled and the topic is not blank, and the server reads back the trimmed topic and the details option. |
| Session.Loaded | public/script.js:459-460 | The parsed body becomes the shown map, rooted at a fresh object that mirrors the body, with its children defaulted, at every depth. |
| Session.FetchDone | public/script.js:438-463 | The generation reply keeps the state sound. |
| Session.Shown | public/script.js:459-462 | Showing a body keeps the state sound. |
| Session.FetchLoads | public/script.js:452-461 | A truthy body with no `null` in a `children` array becomes the drawn map, mirrored at every depth, and Search is enabled again. |
| Session.FetchNullHalts | public/script.js:459-471 | A truthy body holding `null` in a `children` array becomes the current map, but nothing is drawn, the menu and editor are hidden, the generation alert names the null read, and Search is enabled again. |
| Session.FetchFalsyClears | public/script.js:459-467 | A falsy body clears the drawing and the selection and keeps the heap. |
| Session.DrawnNodes | public/script.js:750-779 | The exported rectangles are the drawn boxes, translated by their node's position. |
| Page.Pushed | public/script.js:426 | The push loop runs up to the first null item, and stops early exactly when there is one. |
| Page.LastDrawn | public/script.js:389 | The search finds a drawn node of the object, the last one in the listing. |
| Page.Paint | public/script.js:471-558 | The drawing loops produce `Session.Draw`. |
| Page.Framed | public/script.js:561-582 | The view after the fit is `Session.RenderView`. |
| Page.Page.constructor | public/script.js:270-280 | The page starts in the initial state, on the measured or fallback viewport. |
| Page.Page.Render | public/script.js:466-689 | `renderMindmap` updates the fields to the rendered state. |
| Page.Page.Halt | public/script.js:469-471 | The fields become `Session.Halted`. |
| Page.Page.Clear | public/script.js:467 | With no map, the render clears the drawing. |
| Page.Page.Redraw | public/script.js:469-689 | With a map, the render redraws it. |
| Page.Page.Click | public/script.js:321-341 | A click updates the fields to `Session.Selected`. |
| Page.Page.DoubleClick | public/script.js:598 | A double click updates the fields to `Session.DoubleClicked`. |
| Page.Page.Type | public/script.js:369 | Typing sets the editor text. |
| Page.Page.Commit | public/script.js:367-379 | A commit updates the fields to `Session.Committed`. |
| Page.Page.Write | public/script.js:371-374 | The rename write updates the fields to `Session.Written`. |
| Page.Page.Unbind | public/script.js:378 | The editor is unbound. |
| Page.Page.KeyDown | public/script.js:874 | A key in the editor updates the fields to `Session.KeyDown`. |
| Page.Page.Blur | public/script.js:875 | A blur updates the fields to `Session.Blurred`. |
| Page.Page.BackgroundClick | public/script.js:687 | A background click updates the fields to `Session.BackgroundClicked`. |
| Page.Page.Zoom | public/script.js:290-294 | A zoom updates the fields to `Session.Zoomed`. |
| Page.Page.AddClick | public/script.js:382-396 | Add updates the fields to the corrected `Session.Added`. |
| Page.Page.Deselect | public/script.js:395 | The selection is cleared and the menu hidden. |
| Page.Page.AppendNew | public/script.js:384-387 | The new child is appended and the map rendered. |
| Page.Page.EditNew | public/script.js:388-394 | The editor opens on the new node's drawn element. |
| Page.Page.RemoveClick | public/script.js:399-405 | Remove updates the fields to `Session.Removed` and returns its alert. |
| Page.Page.ExploreClick | public/script.js:408-417 | Explore locks the buttons and returns the request. |
| Page.Page.ExploreReply | public/script.js:416-429 | The expansion reply updates the fields to `Session.ExploreDone`. |
| Page.Page.Explore | public/script.js:426-427 | Handling `data.nodes` updates the fields to `Session.Explored`. |
| Page.Page.PushAll | public/script.js:426-428 | The push loop and the render update the fields to `Session.ItemsExplored`, with its alert. |
| Page.Page.Grow | public/script.js:426 | The items are appended as new objects. |
| Page.Page.GenerateClick | public/script.js:693 | Search returns the alert or the request, as `Session.GenerateClicked`. |
| Page.Page.GenerateReply | public/script.js:438-463 | The generation reply updates the fields to `Session.FetchDone`. |
| Page.Page.Unlock | public/script.js:463 | Search is enabled again. |
| Page.Page.Show | public/script.js:459-462 | The fields become `Session.Shown`, with its alert. |
| Page.Page.ExportPng | public/script.js:696-840 | Export gives the gate's alert or a tight frame around every drawn box and a file named from the root's topic. It covers the desktop export and, with `mobile`, the mobile one (`public/script.js:28-267`). |

## Left out

- Drawing: the SVG, d3 selections and transitions are not modelled. A render is its data: the
  nodes, positions, links and view.
- d3's tidy-tree vertical placement is the parameter `tidy`. The separation function is not
  modelled.
- `descendants()` is breadth-first in d3, while `MindTree.Flat` lists nodes in pre-order. The
  model uses the list only as a set of nodes with their paths and parents, plus the
  first-match lookup in `Session.FindDrawn`. So the order would matter only for an object
  drawn twice, which `JSON.parse` never produces.
- Text measurement (`getComputedTextLength`, `getBBox`) is the parameters `width` and `text`.
  Screen geometry (`getScreenCTM`, `getBoundingClientRect`, `offsetWidth`) is the `Geometry`
  parameter and the `ctm` flag.
- `fetch` and `async`/`await`: each request is a pair of events, the click that returns the
  request and the reply handler. The 50 ms `setTimeout` in `addChildNode` runs at once.
- `console` logging is not modelled. Alert texts are returned as strings.
- Floating point is `real`. `parseFloat` of the `translate(...)` attribute during export is
  read as the node's position.
- Rasterising the export (canvas, `Image`, `Blob`, download link, the iOS preview window) is not
  modelled. A successful export is its frame and its file name.
- Export.FileName: its contract states only the `.png` ending. The stem's properties are the
  lemmas `Export.StemIsWord` and `Export.StemIdempotent`.
- The CORS header values, the prompt texts, and the SDK's configuration and safety settings are
  not modelled. The SDK call is a parameter that yields a reply.
- `JSON.parse` is a parameter, and the regular-expression engine is written out for the three
  patterns the code uses.
- The V8 messages of the `TypeError`s the code can throw are abridged to constants.
- An expansion item that is a non-null primitive becomes an empty object. The page's sloppy-mode
  assignment of `children` to a primitive is ignored, so the page pushes the primitive itself.
- Non-string error values in `catch` blocks are read as their message string.
- Session.ErrorMessage: its contract no longer gives the status message for a truthy `error`
  that is not a string; that case is `String` of the value. `Session.NumberString` writes
  only whole numbers below 10^21 in size as JavaScript does. Fractions and larger numbers are
  written as their whole part rather than in JavaScript's decimal or exponent form.
- The `mobile` parameter of `Page.Page.ExportPng` and `Export.FileName` says which export
  button was pressed: the desktop button or the mobile one (`public/script.js:870`).
  `isMobileDevice` is never called. On the mobile path, the iOS user-agent test chooses between
  a preview window and a download; that choice is not modelled.
- MindTree.Alloc, Session.RootOf: an object's `name` and `topic` are read only when they are
  strings, and a `children` that is not an array becomes an empty list. The page keeps
  whatever value the body had. A number as the name is drawn as its digits and sent back to
  the server as a number, which the server refuses with status 400. A non-empty string as
  `children` is walked by d3 character by character. Any other truthy non-array `children`
  makes Explore's `push` throw. `public/script.js:459` replaces only a falsy `children` with
  `[]`.
- Session.Explored: `newChildren.length` is compared with 0 after conversion to a number.
  The model takes a positive number or `true` stored under `length` in an object as positive.
  A `length` that is a string or an array converting to a positive number is read as not
  positive.
- Session.Selected, Session.Opened, Session.DoubleClicked, Session.Committed, Session.KeyDown,
  Session.Blurred, Session.BackgroundClicked, Session.Zoomed, Session.Deselected,
  Session.Removed, Session.ExploreClicked, Session.ExploreDone, Session.ExploreFinished,
  Session.GenerateClicked, Session.FetchDone, Session.Shown, Session.Written,
  Session.AddedAsWritten, Session.LookUpAsWritten, Session.Added, Session.LookUp,
  Session.Explored and Session.ItemsExplored each state in their own contract
  only that the state stays sound, or where the element is found. What each event does is
  stated by the lemmas beside it, among them `Session.CommitRenames` (for `Session.Written`),
  `Session.AddNeverEdits` (for `Session.AddedAsWritten` and `Session.LookUpAsWritten`),
  `Session.AddEdits` (for `Session.Added` and `Session.LookUp`), `Session.ExploreAppends`,
  `Session.ExploreNullHalts`, `Session.ExploreElsewhere`, `Session.ExploreEmptyKeepsMap` and
  `Session.ExploreFailureKeepsMap` (for `Session.Explored` and `Session.ItemsExplored`), and
  `Session.FetchLoads`, `Session.FetchNullHalts` and `Session.FetchFalsyClears` (for
  `Session.FetchDone` and `Session.Shown`). It is also stated by the function itself and by
  the `Page.Page` method built on it.
- MindTree.Alloc, Session.Loaded, Session.Halted: a `null` item of a `children` array is stored
  as an object with no name, topic or children, as an empty object would be. The first render
  of a map holding it throws, which `Session.Shown` and `Session.ItemsExplored` model. After
  that, the page can draw the same map again only when an expansion reply arrives for a node
  selected on the previous drawing. There the page's render throws again, while the model
  draws the `null` as a childless node.

## Findings

| source | as written | input that shows it | evidently intended | confidence | as-written member | corrected member |
|---|---|---|---|---|---|---|
| public/script.js:388-392 | `addChildNode` builds a fresh `d3.hierarchy(currentMindmapData)` and picks its new node, then looks for the drawn element whose bound datum is `=== ` that node. Every drawn element is bound to a node of the hierarchy the render built, so the filter matches nothing and the editor is never opened. | Select any node and press Add. | The editor opens on the new "New Node" child so that its label can be replaced. | high; not executed | `Session.AddedAsWritten` (with `Session.AddNeverEdits`) | `Session.Added` (with `Session.AddEdits`), used by `Page.Page.AddClick` |
