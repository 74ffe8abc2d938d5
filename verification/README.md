# Mama's Kitchen: a verified model of the shopping list and the recipe assistant

Mama's Kitchen is a small React application of Nigerian recipes. It has:

- a catalog that can be searched;
- a recipe page that puts ingredients on a shopping list;
- a shopping list that merges entries by name and groups them by recipe;
- a chat assistant that recommends a recipe from the words of a message.

This project models the part of the application that carries its logic, and proves properties of it:

- **The application store** (`AppContext`, `app_context.dfy`). The `class Store` holds the shopping list and the chat log. Each of its methods applies one updater function to the state:
  - `AddItem` merges by name, ignoring letter case, or appends an entry stamped with the clock reading;
  - `RemoveById`;
  - `UpdateById`, which overwrites only the fields the patch carries;
  - `AppendMessage`.
- **The shopping-list page** (`ShoppingListPage`, `shopping_list.dfy`):
  - the grouping of entries under `recipeName || "Other Items"`, written as the loop `GroupItems` and proved equal to the specification `Grouped`;
  - the form and edit handlers of the `ShoppingListView` class;
  - the `parseInt(..) || 1` quantity coercion.
- **The recipe page** (`RecipeDetailPage`, `recipe_detail.dfy`): finding a recipe by id, adding one ingredient, and "Add All". "Add All" is a loop of single adds, one clock reading per add.
- **The search filters**: the "All Recipes" page (`RecipesPage`, `recipes_page.dfy`) and the home page's first ten (`HomePage`, `home_page.dfy`).
- **The chat page** (`AIChatPage`, `ai_chat.dfy`):
  - the recommender: message tokens, candidate test, first candidate, reply template and fallback;
  - the send guard, the Enter-key path and the disabled send button;
  - the queue of reply timers;
  - the rule that shows a line wrapped in `**` in bold.

Shared pieces are in their own files:

- `strings.dfy`: lower case, `includes`, `split`, `join`, `trim`, number to string;
- `seqs.dfy`: `filter`, `find`/`findIndex` and subsequences;
- `wrappers.dfy`: `Option`;
- `catalog.dfy`: the recipe record.

How JavaScript behaviour is written down:

- **Quantities.** A quantity is `Undefined`, a number or `NaN`, so that the following are modelled exactly:
  - `item.quantity || 1` (`OrOne`);
  - `existing + k` (`Plus`: undefined plus a number is NaN).
- **Clock readings.** `Date.now()` readings are parameters (`now`, or one reading per add in `clock`). Equal readings therefore give equal ids, as they do in the application.
- **Pending replies.** Every reply timer captures the text it answers. The chat page keeps these texts in a queue (`pending`) and the timer firing is the method `ReplyDue`. The invariant `InStep` says each reply answers the earliest user message that has none yet, even when Enter sends again while a reply is still due.

Behaviour of the code that the model keeps as it is:

- An appended entry copies the candidate's quantity as it is; only the merge path applies `|| 1` (src/context/AppContext.jsx:23-27). `AbsentQuantityNotDefaulted` shows the consequence. Every caller in the application passes a number, so `MergeInvariant` requires one.
- Entry ids are millisecond clock readings (src/context/AppContext.jsx:27). `SameTickCollision` shows that "Add All" within one tick gives every new entry the same id, and that removing one of them removes them all. `SameTickEditMakesCopies` shows that saving an edit of one of them then turns them all into identical copies.
- A line is shown bold only when it starts and ends with `**` (src/pages/AIChat.jsx:161), so the reply template's `**Cook time:** …` lines are shown plain.
- The merge updates every entry whose name matches, not only the first (`AddExistingName`). While names are distinct there is only one such entry (`AddKeepsNamesDistinct`).

## Model

| member | source | states |
|---|---|---|
| AppContext.OrOne | src/context/AppContext.jsx:23 | `q \|\| 1` is never 0; it is `q` for a non-zero number and 1 for undefined, 0 and NaN |
| AppContext.Plus | src/context/AppContext.jsx:23 | adding a number keeps a number (increased by exactly `k`); undefined or NaN plus a number is NaN |
| AppContext.FullPatch | src/pages/ShoppingList.jsx:26-29 | the copy `{ ...item }` taken when editing starts carries exactly the keys the entry has: applied to the entry itself it gives the entry back; applied to another entry it sets id, name and every key the copied entry has, and keeps that entry's own quantity, unit and recipe fields where the copied entry lacks the key; for an entry with every key it gives back the copied entry whatever it is applied to |
| AppContext.ApplyPatch | src/context/AppContext.jsx:37 | `{ ...item, ...updates }`: the empty patch changes nothing and a patch without an id keeps the entry's id; field by field: `UpdateFields`, `FullPatch` |
| AppContext.NewEntry | src/context/AppContext.jsx:27 | `{ ...item, id: Date.now() }` carries the new id and every field of the candidate as given: name, quantity (not defaulted), unit, recipe id and recipe name |
| AppContext.Merge | src/context/AppContext.jsx:23 | the merge changes only the quantity: a number always changes, since `item.quantity \|\| 1` is never 0, and undefined or NaN becomes NaN |
| AppContext.FindSameNameIffHasName | src/context/AppContext.jsx:19 | the `find` with `SameName` (names equal after `toLowerCase`) succeeds exactly when the name is on the list, ignoring case |
| AppContext.AddItem | src/context/AppContext.jsx:18-28 | the updater of `addToShoppingList`: the list grows by one exactly when the name is new (ignoring case), and the name is on it afterwards; the two paths in full: `AddNewName`, `AddExistingName` |
| AppContext.AddNewName | src/context/AppContext.jsx:17-29 | adding a name not on the list appends one entry with the candidate's fields, its quantity as given, and the new id; earlier entries are unchanged |
| AppContext.AddExistingName | src/context/AppContext.jsx:19-25 | adding a name already on the list keeps the length; every entry with that name gains `item.quantity \|\| 1` and keeps its id, name, unit and recipe; others are untouched |
| AppContext.AddKeepsNames | src/context/AppContext.jsx:17-29 | after an add the candidate's name is on the list, and every name that was on it still is |
| AppContext.AddKeepsNamesDistinct | src/context/AppContext.jsx:17-29 | an add keeps "at most one entry per name, ignoring case" |
| AppContext.AddFreshIdKeepsIdsDistinct | src/context/AppContext.jsx:27 | an add stamped with an id no entry has keeps ids distinct |
| AppContext.AddManyKeepsNames | src/context/AppContext.jsx:17-29 | after a sequence of adds every added name is on the list and no name is lost |
| AppContext.AddMany | src/pages/RecipeDetail.jsx:41-43 | adds one after another: the list never shrinks, grows by at most one per add and ends with the last name on it; more in `AddManyKeepsNames`, `AddManyAllNew` |
| AppContext.NewEntries | src/context/AppContext.jsx:27 | the entries the append path creates, one per candidate with its stamp, in order |
| AppContext.AddManyAllNew | src/context/AppContext.jsx:17-29 | adds of names new to the list and to each other append exactly one new entry each, in order |
| AppContext.AddManyIdsFrom | src/context/AppContext.jsx:27 | every id after a sequence of adds was on the list before or is one of the clock readings used |
| AppContext.AddManyFreshIds | src/context/AppContext.jsx:27 | pairwise distinct readings that no entry carries keep the ids distinct over a sequence of adds |
| AppContext.MergeInvariant | src/context/AppContext.jsx:17-29 | from an empty list, adds of non-zero quantities leave at most one entry per name, each holding the sum of the quantities added under its name |
| AppContext.TomatoScenario | src/context/AppContext.jsx:17-29 | "Tomato" x2 then "tomato" x3 leaves a single entry "Tomato" x5 |
| AppContext.AbsentQuantityNotDefaulted | src/context/AppContext.jsx:23-27 | a candidate without a quantity is stored as undefined, and a later add of that name makes it NaN |
| AppContext.RemoveKeepsOthers | src/context/AppContext.jsx:31-33 | removal keeps every entry with another id, each as many times as before and in order, and leaves none with the id |
| AppContext.RemoveAbsent | src/context/AppContext.jsx:31-33 | removing an id no entry has changes nothing |
| AppContext.RemoveIdempotent | src/context/AppContext.jsx:31-33 | removing twice equals removing once |
| AppContext.RemoveById | src/context/AppContext.jsx:32 | the updater of `removeFromShoppingList` never grows the list and leaves no entry with the id; what it keeps: `RemoveKeepsOthers` |
| AppContext.UpdateFields | src/context/AppContext.jsx:35-39 | an update keeps length and order, leaves entries with other ids untouched, and overwrites exactly the fields the patch carries |
| AppContext.UpdateNoOp | src/context/AppContext.jsx:35-39 | an update of an absent id, or with the empty patch, changes nothing |
| AppContext.RenameMakesDuplicate | src/context/AppContext.jsx:35-39 | update does not merge: renaming one entry to another's name breaks name distinctness |
| AppContext.UpdateById | src/context/AppContext.jsx:36-38 | the updater of `updateShoppingListItem` keeps the length and every entry with another id; the patched fields: `UpdateFields` |
| AppContext.AppendMessageAtEnd | src/context/AppContext.jsx:41-43 | a chat append adds one message at the end with the draft's role, content and the new id; the log before is a prefix |
| AppContext.AppendMessage | src/context/AppContext.jsx:42 | the updater of `addChatMessage` adds one message and keeps the log before it as a prefix; the new message: `AppendMessageAtEnd` |
| AppContext.Store.constructor | src/context/AppContext.jsx:14-15 | both the shopping list and the chat log start empty |
| AppContext.Store.AddToShoppingList | src/context/AppContext.jsx:17-29 | the list becomes `AddItem` of the old one; the name is then present; name distinctness is kept, and id distinctness when the reading is fresh; the chat is unchanged |
| AppContext.Store.RemoveFromShoppingList | src/context/AppContext.jsx:31-33 | the list becomes `RemoveById` of the old one and no entry keeps the id; the chat is unchanged |
| AppContext.Store.UpdateShoppingListItem | src/context/AppContext.jsx:35-39 | the list becomes `UpdateById` of the old one, with the same length; the chat is unchanged |
| AppContext.Store.AddChatMessage | src/context/AppContext.jsx:41-43 | the log becomes `AppendMessage` of the old one, which stays a prefix; the list is unchanged |
| ShoppingListPage.Label | src/pages/ShoppingList.jsx:43 | the group title is the recipe name when it is non-empty, "Other Items" otherwise, and never empty |
| ShoppingListPage.FirstWithLabel | src/pages/ShoppingList.jsx:42-49 | the position where a title is first met, or the length when it never is |
| ShoppingListPage.LabelsExact | src/pages/ShoppingList.jsx:42-49 | group titles are distinct and are exactly the titles the entries carry |
| ShoppingListPage.LabelsInFirstOccurrenceOrder | src/pages/ShoppingList.jsx:42-49 | groups appear in the order in which their titles are first met in the list |
| ShoppingListPage.GroupedSnocExisting | src/pages/ShoppingList.jsx:44-47 | an entry whose title already has a group is pushed onto the end of that group |
| ShoppingListPage.GroupedSnocNew | src/pages/ShoppingList.jsx:44-47 | an entry with a new title opens a new one-entry group at the end |
| ShoppingListPage.GroupItems | src/pages/ShoppingList.jsx:42-49 | the reduce over the list yields exactly the specification `Grouped` of the list |
| ShoppingListPage.GroupedTotal | src/pages/ShoppingList.jsx:42-49 | the group sizes add up to the length of the list |
| ShoppingListPage.GroupHoldsItsTitle | src/pages/ShoppingList.jsx:42-49 | each group holds the entries of its title and no others, at least one, in list order |
| ShoppingListPage.GroupKeepsEveryCopy | src/pages/ShoppingList.jsx:42-49 | a group holds every entry of its title as often as the list does, and no entry of another title |
| ShoppingListPage.Grouped | src/pages/ShoppingList.jsx:42-49 | the `groupedItems` reduce as a specification: one group per title, every entry of a group carrying its title; its properties: `LabelsExact`, `GroupHoldsItsTitle`, `GroupingPartitions` |
| ShoppingListPage.GroupingPartitions | src/pages/ShoppingList.jsx:42-49 | grouping partitions the list: distinct titles, every entry in exactly the group of its own title, sizes summing to the length |
| ShoppingListPage.ManualEditKeepsTwinsRecipe | src/pages/ShoppingList.jsx:26-35 | an entry added from the form has no recipe keys, so saving its unchanged copy over an id a "Jollof Rice" entry shares renames that entry (name, quantity, unit) but leaves it in the "Jollof Rice" group, while the form entry stays under "Other Items" |
| ShoppingListPage.JollofScenario | src/pages/ShoppingList.jsx:42-49 | three "Jollof Rice" entries and one without a recipe give the groups "Jollof Rice" (three, in order) then "Other Items" |
| ShoppingListPage.SaveUnchangedEdit | src/pages/ShoppingList.jsx:26-35 | saving an untouched edit of an entry leaves the list unchanged when ids are distinct |
| ShoppingListPage.ShoppingListView.constructor | src/pages/ShoppingList.jsx:13-16 | the form starts blank with quantity 1, nothing is being edited and the form is closed |
| ShoppingListPage.ShoppingListView.HandleAddItem | src/pages/ShoppingList.jsx:18-24 | a name that is blank after trimming changes nothing; otherwise the item is added to the store, the form is reset and closed |
| ShoppingListPage.ShoppingListView.SetShowAddForm | src/pages/ShoppingList.jsx:68 | opening, closing or toggling the add form changes only that flag |
| ShoppingListPage.ShoppingListView.SetNewName | src/pages/ShoppingList.jsx:87-89 | the name input changes only the form's name |
| ShoppingListPage.ShoppingListView.SetNewQuantity | src/pages/ShoppingList.jsx:97-101 | the quantity input stores `parseInt(value) \|\| 1` in the form and nothing else |
| ShoppingListPage.ShoppingListView.SetNewUnit | src/pages/ShoppingList.jsx:109-111 | the unit input changes only the form's unit |
| ShoppingListPage.ShoppingListView.StartEditing | src/pages/ShoppingList.jsx:26-29 | editing starts with the entry's id and a key-for-key copy of it (`FullPatch`): keys the entry lacks are absent from the draft, and the add form is untouched |
| ShoppingListPage.ShoppingListView.SetEditName | src/pages/ShoppingList.jsx:164-169 | the edit row's name input sets only the draft's name |
| ShoppingListPage.ShoppingListView.SetEditQuantity | src/pages/ShoppingList.jsx:175-180 | the edit row's quantity input stores `parseInt(value) \|\| 1` in the draft |
| ShoppingListPage.ShoppingListView.SetEditUnit | src/pages/ShoppingList.jsx:186-191 | the edit row's unit input sets only the draft's unit |
| ShoppingListPage.ShoppingListView.SaveEdit | src/pages/ShoppingList.jsx:31-35 | the draft is applied to the entries with the edited id (nothing when no id is set) and edit mode ends |
| ShoppingListPage.ShoppingListView.CancelEdit | src/pages/ShoppingList.jsx:37-40 | edit mode ends and the store is not touched |
| RecipeDetailPage.FindRecipe | src/pages/RecipeDetail.jsx:15-26 | the first recipe with the id, or none exactly when no recipe has it |
| RecipeDetailPage.NewIngredientEntry | src/pages/RecipeDetail.jsx:28-35 | a new ingredient becomes an entry with quantity 1, empty unit and the recipe's id, shown in the recipe's group |
| RecipeDetailPage.IngredientItems | src/pages/RecipeDetail.jsx:40-44 | "Add All" builds one candidate per ingredient, in ingredient order |
| RecipeDetailPage.AddIngredientToList | src/pages/RecipeDetail.jsx:28-38 | one ingredient is added through the store's merge-or-append, after which it is on the list |
| RecipeDetailPage.AddAllIngredients | src/pages/RecipeDetail.jsx:40-44 | the list becomes the adds of every ingredient in order, one clock reading each, and every ingredient is then on it |
| RecipeDetailPage.AddPresentIngredient | src/pages/RecipeDetail.jsx:28-35 | adding an ingredient already listed keeps the length, adds 1 to that entry and keeps its group |
| RecipeDetailPage.SameTickCollision | src/pages/RecipeDetail.jsx:40-44 | "Add All" within one clock tick gives all new entries the same id, and removing that id removes them all |
| RecipeDetailPage.FreshClockKeepsIdsDistinct | src/pages/RecipeDetail.jsx:40-44 | distinct fresh clock readings keep every id distinct through "Add All" |
| RecipeDetailPage.AddedIngredientHasAllKeys | src/pages/RecipeDetail.jsx:28-44 | every entry "Add All" appends has all its keys (quantity, unit, recipe id, recipe name), and its recipe name is the recipe's, so its copy in the edit form overwrites all of them |
| RecipeDetailPage.SameTickEditMakesCopies | src/pages/RecipeDetail.jsx:40-44 | after a same-tick "Add All", saving an unchanged edit of one new entry (src/pages/ShoppingList.jsx:26-35) makes every new entry an identical copy of it and keeps the older entries |
| RecipeDetailPage.IngredientItem | src/pages/RecipeDetail.jsx:29-35 | the candidate for one ingredient carries its name, adds 1 when merged, and lands in the recipe's group ("Other Items" for an unnamed recipe) |
| RecipesPage.FilteredRecipesSpec | src/pages/Recipes.jsx:13-17 | the result is an order-preserving subsequence of the catalog holding every matching recipe as often as the catalog does and no other; a recipe matches when its name or description contains the term, ignoring case |
| RecipesPage.FilteredRecipes | src/pages/Recipes.jsx:13-17 | `filteredRecipes` never grows the catalog and holds only matching recipes; which ones and in what order: `FilteredRecipesSpec` |
| RecipesPage.Matches | src/pages/Recipes.jsx:14-16 | the empty term matches every recipe, and a matching term is no longer than the name or the description; which recipes it keeps: `FilteredRecipesSpec` |
| RecipesPage.EmptyTermKeepsAll | src/pages/Recipes.jsx:13-17 | the empty term shows the whole catalog |
| RecipesPage.SearchIgnoresCase | src/pages/Recipes.jsx:15-16 | terms equal up to letter case give the same result |
| RecipesPage.SearchLowerTerm | src/pages/Recipes.jsx:15-16 | a term and its lower-cased form give the same result |
| HomePage.HomeRecipes | src/pages/Home.jsx:11-17 | at most ten recipes: the first `min(10, n)` of the search result, each matching |
| HomePage.HomeRecipesInCatalogOrder | src/pages/Home.jsx:11-17 | the home page's recipes keep catalog order |
| HomePage.HomeEmptyTerm | src/pages/Home.jsx:11-17 | with no term the home page shows the first ten recipes of the catalog |
| AIChatPage.TokensSpec | src/pages/AIChat.jsx:18 | the tokens are exactly the pieces of the lower-cased message between single spaces that are longer than two characters, each as often as it occurs, in order and without spaces |
| AIChatPage.ShortMessagesHaveNoTokens | src/pages/AIChat.jsx:18 | "" and "ok" yield no token |
| AIChatPage.IngredientText | src/pages/AIChat.jsx:17 | every ingredient, lower-cased, occurs in the lower-cased joined ingredient text |
| AIChatPage.IsCandidate | src/pages/AIChat.jsx:17-19 | a recipe is a candidate only when there is some token; which recipes: `Recommend`, `IngredientWordMakesCandidate` |
| AIChatPage.IngredientWordMakesCandidate | src/pages/AIChat.jsx:17-19 | a token that occurs in any one ingredient, ignoring case, makes the recipe a candidate |
| AIChatPage.Tokens | src/pages/AIChat.jsx:13-18 | `userWords`: every token is longer than two characters and has no space; exactly which: `TokensSpec` |
| AIChatPage.Recommend | src/pages/AIChat.jsx:16-23 | the first catalog recipe whose joined, lower-cased ingredients contain some token; none exactly when no recipe does |
| AIChatPage.FoundReplyEmbedsRecipe | src/pages/AIChat.jsx:24-32 | the recommending reply contains the recipe's name, description, cook time, servings and difficulty, and differs from the fallback |
| AIChatPage.FoundReply | src/pages/AIChat.jsx:24-32 | the template, built from `ReplyParts`, opens with "Based on your ingredients, I recommend making **"; the recipe fields it carries: `FoundReplyEmbedsRecipe` |
| AIChatPage.FallbackSuggestsRecipes | src/pages/AIChat.jsx:34-40 | the fallback reply `FallbackReply` suggests Jollof Rice, Egusi Soup and Suya by name |
| AIChatPage.ReplyIsFallbackIffNoCandidate | src/pages/AIChat.jsx:22-41 | the reply is the fallback exactly when no recipe is a candidate; otherwise it is the template for the first candidate |
| AIChatPage.GenerateAIResponse | src/pages/AIChat.jsx:12-42 | the reply is the fallback exactly when no recipe is recommended, and otherwise names the recommended recipe |
| AIChatPage.NoTokensGetFallback | src/pages/AIChat.jsx:18-41 | a message without a word longer than two characters always gets the fallback |
| AIChatPage.RenderLine | src/pages/AIChat.jsx:160-163 | a line is bold exactly when it starts and ends with `**`; the bold text is the line without those markers ("" for lines shorter than four), and other lines are shown as they are |
| AIChatPage.PlainContentShownVerbatim | src/pages/AIChat.jsx:160-165 | content without marked lines is shown as plain lines that join back to the content |
| AIChatPage.RenderContent | src/pages/AIChat.jsx:160-165 | one shown line per line of the message, each shown by the bold rule `RenderLine`: a line wrapped in `**` in bold without the markers, any other line as it is |
| AIChatPage.ChatView.constructor | src/pages/AIChat.jsx:9-10 | the input starts empty, nothing is being typed and no reply is due |
| AIChatPage.ChatView.SetInput | src/pages/AIChat.jsx:207 | typing or picking a suggestion only changes the input |
| AIChatPage.ChatView.SendMessage | src/pages/AIChat.jsx:44-67 | a blank input changes nothing; otherwise the untrimmed text is logged as a user message, the box cleared, typing shown and a reply to that text scheduled; `InStep` is kept |
| AIChatPage.ChatView.ClickSend | src/pages/AIChat.jsx:214-216 | while a reply is being typed or the input is blank the button changes nothing; otherwise it does exactly what sending does: logs the untrimmed text, clears the box, shows typing and schedules the reply; `InStep` is kept |
| AIChatPage.ChatView.KeyPress | src/pages/AIChat.jsx:69-74 | Enter without Shift does exactly what sending does, even while a reply is being typed; other keys, and a blank input, change nothing |
| AIChatPage.ChatView.ReplyDue | src/pages/AIChat.jsx:58-66 | the reply to the oldest pending text is logged as an assistant message and typing stops; under `InStep` it answers the earliest unanswered user message |
| Strings.Lower | src/context/AppContext.jsx:19 | `toLowerCase` keeps the length and maps each letter A-Z to its lower case |
| Strings.Trim | src/pages/ShoppingList.jsx:19 | the trimmed string is empty exactly when the input is all white space; otherwise it starts and ends with a non-space; it occurs in the input with only white space before and after it |
| Strings.Split | src/pages/AIChat.jsx:18 | `split` on one character gives at least one piece, none containing it, and they join back to the input |
| Strings.SplitJoin | src/pages/AIChat.jsx:160 | splitting undoes joining for pieces free of the separator |
| Strings.Join | src/pages/AIChat.jsx:17 | `join` starts with the first piece; every piece occurs in the result: `JoinContainsPiece` |
| Strings.JoinContainsPiece | src/pages/AIChat.jsx:17 | every piece occurs in the joined string |
| Strings.Contains | src/pages/Recipes.jsx:15-16 | `includes` never holds of a needle longer than the string; every string includes "" and itself: `ContainsTrivial` |
| Strings.IntToString | src/pages/AIChat.jsx:29 | the decimal text of the servings count has a minus sign exactly for negatives, denotes the number and has no leading zero |
| Seqs.FindIndex | src/context/AppContext.jsx:19 | `find` locates the first element passing the test, and fails exactly when none passes |
| Seqs.Filter | src/pages/Recipes.jsx:13 | `filter` keeps only elements that pass the test and never grows (how many copies it keeps: `Seqs.FilterMultiset`) |
| Seqs.FilterMembers | src/pages/Recipes.jsx:13 | an element is in the filtered sequence exactly when it is in the input and passes |
| Seqs.FilterMultiset | src/pages/Recipes.jsx:13 | `filter` keeps every copy of an element that passes and no copy of one that fails |
| Seqs.FilterIsSubsequence | src/pages/Recipes.jsx:13 | `filter` keeps input order |
| Seqs.FilterHeadIsFirst | src/pages/AIChat.jsx:16-23 | the first element of a filter is the element `find` returns, and the filter is empty exactly when `find` fails |

## Left out

- Rendering is not modelled: JSX, styles, animations, icons, the Snackbar and its visibility flag, the theme context, the theme toggle and navigation. None of these changes the state above.
- The `useApp` error thrown outside the provider is not modelled. Every view here receives the `Store` explicitly.
- `Date.now()` and `new Date()` are inputs. Message timestamps and their `toLocaleTimeString` display are not modelled; a message carries only its id, role and content.
- The 1.5-second delay and the timer itself are not modelled. A reply becomes due when `ReplyDue` is called. Timers firing after the page is left are not modelled.
- The URL parameter parsing `parseInt(id)` on the recipe page is not modelled; `FindRecipe` takes the number. The input fields' `parseInt` is a parameter of type `Quantity`.
- The catalog data file is not part of this model. The catalog is a parameter, so catalog-specific scenarios (such as "I have beans and plantain" getting the fallback) are stated for any catalog without a candidate, in `ReplyIsFallbackIffNoCandidate`.
- JavaScript object key order in the grouping reduce is taken to be insertion order. This holds for the non-numeric titles the application produces. A recipe named like an array index (for example "2") would be listed first by `Object.entries`; this is not modelled. Titles that collide with `Object.prototype` keys (for example "constructor") are not modelled either.
- An absent key and a key holding `undefined` are one and the same in the model (`None` or `Undefined`). The application never stores an explicit `undefined`, so a spread copy behaves alike either way.
- Numbers are unbounded integers: JavaScript's floating-point quantities, overflow and non-integer quantities are not modelled. Lengths count characters, not UTF-16 units.
- Strings.Lower: only letters A-Z are lower-cased, while `toLowerCase` folds all of Unicode.
- Strings.Trim: only the space and the ASCII controls tab to carriage return count as white space, while `trim` also removes Unicode spaces.
- AppContext.MergeInvariant: requires every candidate to carry a non-zero number, as all callers in the application do. Without one the sum does not hold, as `AbsentQuantityNotDefaulted` shows.
