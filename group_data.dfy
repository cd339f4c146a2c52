/** `dummyGroups`: the store's initial contents and the target of `resetGroups`. */
module GroupData {
  import opened Types

  const You := Member("m1", "You", "you@example.com", "1234567890")
  const Alex := Member("m2", "Alex", "alex@example.com", "9876543210")
  const Mom := Member("m3", "Mom", "mom@example.com", "5555555555")

  /** The two sample groups. Every `new Date()` in the literal is evaluated when the
      module loads; `loadedAt` stands for that instant. */
  function DummyGroups(loadedAt: int): seq<Group>
  {
    [ Group("1", "Goa Trip", "Expenses of Goa trip",
        [You, Alex],
        [ Event("e1", "Hotel Booking", "2-night stay", "Accommodation",
            2000.0, loadedAt, "m1", map["m1" := 1000.0, "m2" := 1000.0]),
          Event("e2", "Dinner", "Dinner at beach shack", "Food",
            800.0, loadedAt, "m2", map["m1" := 400.0, "m2" := 400.0]) ],
        [ Payable("m1", "m2", 200.0) ]),
      Group("2", "Family", "Family-related expenses",
        [You, Mom],
        [ Event("e3", "Groceries", "Weekly grocery shopping", "Essentials",
            1000.0, loadedAt, "m1", map["m1" := 500.0, "m3" := 500.0]) ],
        [ Payable("m1", "m3", 500.0) ]) ]
  }
}
