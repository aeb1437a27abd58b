/** The labels an engine carries, and when the controller's own listing finds it. */
module Labels {
  const APP: string := "app"
  const CHAOS_ENGINE: string := "chaos-engine"
  const CHAOS_UID: string := "chaosUID"

  /** The selector of updateActiveStatus. */
  predicate Selected(labels: map<string, string>, uid: string) {
    APP in labels && labels[APP] == CHAOS_ENGINE && CHAOS_UID in labels && labels[CHAOS_UID] == uid
  }

  /** The label part of getEngineFromTemplate: the two selector labels, then the schedule's
      own over them. The listing finds the engine exactly when the schedule's labels leave
      both selector labels alone or repeat their values. */
  method EngineLabels(uid: string, own: map<string, string>) returns (labels: map<string, string>)
    ensures labels.Keys == own.Keys + {APP, CHAOS_UID}
    ensures forall k :: k in own ==> labels[k] == own[k]
    ensures APP !in own ==> labels[APP] == CHAOS_ENGINE
    ensures CHAOS_UID !in own ==> labels[CHAOS_UID] == uid
    ensures Selected(labels, uid) <==>
            (APP in own ==> own[APP] == CHAOS_ENGINE) && (CHAOS_UID in own ==> own[CHAOS_UID] == uid)
  {
    labels := map[APP := CHAOS_ENGINE, CHAOS_UID := uid];
    var left := own.Keys;
    while left != {}
      invariant left <= own.Keys
      invariant labels.Keys == (own.Keys - left) + {APP, CHAOS_UID}
      invariant forall k :: k in own && k !in left ==> labels[k] == own[k]
      invariant APP !in own ==> labels[APP] == CHAOS_ENGINE
      invariant CHAOS_UID !in own ==> labels[CHAOS_UID] == uid
      decreases |left|
    {
      var index :| index in left;
      labels := labels[index := own[index]];
      left := left - {index};
    }
  }
}
