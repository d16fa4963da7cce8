# Loyalty Wallet: card store, route lookup and barcode rasterisation

This project models the sequential core of the Loyalty Wallet Android app, a
single Kotlin file (`MainActivity.kt`). The model has three parts.

- **The card store.** `LoyaltyCardViewModel` owns an ordered list of
  `LoyaltyCard` records, seeded with a "Bookshop" QR card and a "Cafeteria"
  EAN-13 card. `updateCardName` overwrites the slot of the first record equal
  to the given card. The copy it writes differs only in `cardName`.
  `deleteCard` removes the first equal record, or does nothing when there is
  none. Records are compared with Kotlin data-class equality, which compares
  all five fields. The Dafny datatype's `==` is the same relation.
- **The route lookup.** The details route finds its card with
  `firstOrNull { it.cardName == cardName }`. That is the first card carrying
  the name, so navigation identifies cards by name, while the store
  identifies them by whole record.
- **`generateBarcode`.** It maps the type string to a symbology. Only
  "QR_CODE" and "EAN_13" are known; any other string gives `null` at once.
  It then asks the encoder for a 512 × 512 bit matrix and flattens the matrix
  row by row into an ARGB pixel array: black where a module is set, white
  elsewhere. Every exception inside the `try` becomes `null`.

Files:

- `wrappers.dfy`: `Option`, which stands for Kotlin's nullable results.
- `cards.dfy`: module `Cards`. It holds the record, `IndexOf`
  (`List.indexOf`), the route lookup and lemmas about it.
- `card_store.dfy`: module `CardStore`. It holds the specification functions
  `RenameFirst` and `RemoveFirst`, the lemmas about them, and the class
  `LoyaltyCardViewModel`. The class has a `cards: seq<LoyaltyCard>` field and
  methods that reassign it.
- `barcode.dfy`: module `Barcode`. It holds the format dispatch, the
  row-major index arithmetic, the reference raster `Rasterize`, the method
  `Flatten`, which holds the nested loop over a Dafny `array<int>`, and
  `GenerateBarcode`.

Modelling choices:

- A `Date` is an opaque `int`. The four `Date()` clock readings of the seed
  list are parameters of the constructor.
- The ZXing encoder is the parameter `encode` of `GenerateBarcode`. It returns
  a matrix, or `None` where the library would throw.
- `Bitmap.createBitmap` throws `IllegalArgumentException` for a zero width or
  a zero height. The `catch` turns that into `null`, and the model does the
  same.
- `Color.Black.toArgb()` and `Color.White.toArgb()` are the signed 32-bit
  values -16777216 (0xFF000000) and -1 (0xFFFFFFFF).

Notes on what the code does:

- Rename and delete find their target by whole-record equality of all five
  fields, never by name alone.
- Renaming an absent card throws: `indexOf` returns -1, and the indexed
  assignment then fails.
- Deleting an absent card is a silent no-op.
- The bitmap takes the encoder matrix's own width and height, whatever size
  the encoder returns.
- After a delete the card may still be in the list. `DeleteLeavesCardIffDuplicated`
  shows this happens exactly when the list held two or more equal copies.

## Model

| member | source | states |
|---|---|---|
| `Cards.IndexOf` | app/src/main/java/com/example/loyalty_wallet/MainActivity.kt:242 | `indexOf` gives -1 exactly when the card is absent. Otherwise it gives an index holding an equal card, with no equal card before it. |
| `Cards.FindCardByName` | app/src/main/java/com/example/loyalty_wallet/MainActivity.kt:224 | The lookup gives nothing exactly when no card has the name. Otherwise it gives a card with that name, found at an index with no card of that name before it. |
| `Cards.LookupSlotIsFirstNameMatch` | app/src/main/java/com/example/loyalty_wallet/MainActivity.kt:224 | Take the card found by name. The first record equal to it sits at the first index carrying the name. So the store's later rename or delete hits the slot navigation chose. |
| `Cards.NavigationReachesEveryCard` | app/src/main/java/com/example/loyalty_wallet/MainActivity.kt:224 | When names are distinct, looking up any card's name yields that very card. |
| `Cards.ShadowedCardUnreachable` | app/src/main/java/com/example/loyalty_wallet/MainActivity.kt:224 | Suppose a card's name is already carried by an earlier card, and the card is not a copy of an earlier record. Then navigation by that name never yields it. |
| `CardStore.RenameFirstSpec` | app/src/main/java/com/example/loyalty_wallet/MainActivity.kt:241-243 | Renaming keeps the length. The first equal slot becomes a card with the new name and with the original's two dates, payload and barcode type. Every other slot is untouched, later equal copies included. |
| `CardStore.RenameFirst` | app/src/main/java/com/example/loyalty_wallet/MainActivity.kt:242 | What the rename does to the list: the first record equal to the card becomes `card.copy(cardName = newName)`. `RenameFirstSpec` gives its properties. |
| `CardStore.RemoveFirst` | app/src/main/java/com/example/loyalty_wallet/MainActivity.kt:246 | What `MutableList.remove` does to the list. `RemoveFirstAt`, `RemoveAbsent` and `RemoveFirstMultiset` give its properties. |
| `CardStore.RenameThenNavigate` | app/src/main/java/com/example/loyalty_wallet/MainActivity.kt:241-243 | Suppose no card before the renamed slot carries the new name. Then looking up the new name after a rename yields the renamed card, with all its other fields unchanged. |
| `CardStore.RenameShadowedByEarlierName` | app/src/main/java/com/example/loyalty_wallet/MainActivity.kt:241-243 | Suppose a card before the renamed slot already carries the new name. Then looking up the new name after the rename yields that earlier card, the same result as before the rename. |
| `CardStore.RemoveFirstAt` | app/src/main/java/com/example/loyalty_wallet/MainActivity.kt:245-247 | Suppose the first copy of the card is at index i. Then deleting yields the list without slot i, with the others in their order. |
| `CardStore.RemoveAbsent` | app/src/main/java/com/example/loyalty_wallet/MainActivity.kt:246 | Deleting a card that is not in the list leaves the list unchanged. |
| `CardStore.RemoveFirstMultiset` | app/src/main/java/com/example/loyalty_wallet/MainActivity.kt:246 | Deleting takes away one copy of the card, if there is one, and nothing else. |
| `CardStore.DeleteTwiceSparesOthers` | app/src/main/java/com/example/loyalty_wallet/MainActivity.kt:245-247 | Deleting the same card twice keeps every other record's count. At most two elements go. |
| `CardStore.DeleteLeavesCardIffDuplicated` | app/src/main/java/com/example/loyalty_wallet/MainActivity.kt:246 | After a delete the card is still present if and only if the list held at least two equal copies. |
| `CardStore.LoyaltyCardViewModel.constructor` | app/src/main/java/com/example/loyalty_wallet/MainActivity.kt:234-239 | The store starts with the Bookshop QR card, then the Cafeteria EAN-13 card. |
| `CardStore.LoyaltyCardViewModel.UpdateCardName` | app/src/main/java/com/example/loyalty_wallet/MainActivity.kt:241-243 | The card must be present. The new list is `RenameFirst` of the old one: same length, and the first equal slot carries the new name. |
| `CardStore.LoyaltyCardViewModel.DeleteCard` | app/src/main/java/com/example/loyalty_wallet/MainActivity.kt:245-247 | The new list is `RemoveFirst` of the old one. It is one shorter when the card was present and the same length otherwise. |
| `Barcode.FormatOf` | app/src/main/java/com/example/loyalty_wallet/MainActivity.kt:184-189 | "QR_CODE" and only it gives QR. "EAN_13" and only it gives EAN-13. Every other string gives no format. |
| `Barcode.PixelColor` | app/src/main/java/com/example/loyalty_wallet/MainActivity.kt:199 | A pixel is black if and only if the module is set, and white if and only if it is clear. |
| `Barcode.FlatIndexInRange` | app/src/main/java/com/example/loyalty_wallet/MainActivity.kt:195-199 | For a cell inside the grid, `y * width + x` lies inside the `width * height` array. |
| `Barcode.FlatIndexInjective` | app/src/main/java/com/example/loyalty_wallet/MainActivity.kt:196-199 | Two cells share a position only when they are the same cell, so no pixel is written twice. |
| `Barcode.FlatIndexOnto` | app/src/main/java/com/example/loyalty_wallet/MainActivity.kt:195-201 | Every array position is the position of the cell (i % width, i / width), so every pixel is written. |
| `Barcode.Rasterize` | app/src/main/java/com/example/loyalty_wallet/MainActivity.kt:195-201 | The reference row-major raster of a matrix, of length `width * height`, defined position by position from cell (i % width, i / width). |
| `Barcode.RasterizeAt` | app/src/main/java/com/example/loyalty_wallet/MainActivity.kt:196-201 | In the reference raster, the pixel at cell (x, y)'s position shows that cell's module. |
| `Barcode.RasterizeUnique` | app/src/main/java/com/example/loyalty_wallet/MainActivity.kt:195-201 | A pixel sequence of the right length that shows every module at its cell's position equals the reference raster. |
| `Barcode.Flatten` | app/src/main/java/com/example/loyalty_wallet/MainActivity.kt:193-201 | The nested loop gives a newly allocated array of length `width * height`. Its entry `y * width + x` is black exactly when module (x, y) is set. |
| `Barcode.GenerateBarcode` | app/src/main/java/com/example/loyalty_wallet/MainActivity.kt:182-208 | An unknown type gives nothing, whatever the encoder does. An encoder failure gives nothing. An empty matrix gives nothing. Otherwise the result is a bitmap of the matrix's size whose pixels are the raster of the matrix, cell by cell. |

## Left out

- The Compose UI is not modelled: `CardDetailsView`, `LoyaltyCardGrid`, `LoyaltyCardItem`, the delete dialog, `DefaultPreview` and theming. It is declarative layout with no domain logic.
- Navigation scaffolding is not modelled: `NavHost`, `navigate`, `popBackStack` and the route-argument extraction. Only the name lookup on line 224 is kept.
- The ZXing encoder (`MultiFormatWriter().encode`) is a foreign library. It is the `encode` parameter, so QR and EAN-13 symbol construction are not modelled. The app checks no EAN-13 digits or check digit of its own, so the model has none either.
- `Bitmap.createBitmap` and `setPixels` are Android platform calls. They are modelled only as "a zero-sized bitmap fails" and "the bitmap holds the pixel array".
- `SimpleDateFormat("dd/MM/yyyy")` and `Date()` depend on the locale and the clock. Dates are opaque integers, and display formatting is not modelled.
- The `mutableStateListOf` reactivity and recomposition are not modelled. The list is a plain sequence field.
- `SampleData` is preview-only constant data and is not modelled.
- `Barcode.Flatten`: Kotlin's 32-bit `Int` product `width * height` is taken as exact; 32-bit overflow is not modelled. The model's `encode` parameter places no bound on the matrix size. (ZXing returns the larger of the requested size and the symbol's own size, and both symbologies fit within 512, so the real product is 512 × 512.)
- `CardStore.LoyaltyCardViewModel.UpdateCardName`: the `IndexOutOfBoundsException` thrown for an absent card is not a modelled outcome. Presence of the card is a precondition instead.
- `Barcode.GenerateBarcode`: the model can only state that an unknown type gives nothing for every encoder. It cannot state that the encoder is never invoked, because the encoder is a pure function parameter.
